/** Polynomials over the two-element field, as the finite sets of their exponents. */
module Polynomials {

  type Poly = set<nat>

  function Add(a: Poly, b: Poly): Poly { (a - b) + (b - a) }

  /** The product with x^k. */
  function Shift(p: Poly, k: nat): Poly { set e | e in p :: e + k }

  /** The product with x^16 + x^12 + x^5 + 1. */
  function TimesG(q: Poly): Poly { Add(Add(Shift(q, 16), Shift(q, 12)), Add(Shift(q, 5), q)) }

  predicate Below(p: Poly, k: nat) { forall e :: e in p ==> e < k }

  lemma InShift(p: Poly, k: nat, e: nat)
    ensures e in Shift(p, k) <==> e >= k && e - k in p
  {
    if e >= k && e - k in p { assert (e - k) + k == e; }
  }

  lemma AddAssoc(a: Poly, b: Poly, c: Poly)
    ensures Add(Add(a, b), c) == Add(a, Add(b, c))
  {}

  /** (a + b) + (c + d) = (a + c) + (b + d). */
  lemma AddSwap(a: Poly, b: Poly, c: Poly, d: Poly)
    ensures Add(Add(a, b), Add(c, d)) == Add(Add(a, c), Add(b, d))
  {}

  lemma ShiftAdd(a: Poly, b: Poly, k: nat)
    ensures Shift(Add(a, b), k) == Add(Shift(a, k), Shift(b, k))
  {
    forall e: nat ensures e in Shift(Add(a, b), k) <==> e in Add(Shift(a, k), Shift(b, k)) {
      InShift(Add(a, b), k, e);
      InShift(a, k, e);
      InShift(b, k, e);
    }
  }

  lemma ShiftShift(p: Poly, j: nat, k: nat)
    ensures Shift(Shift(p, j), k) == Shift(p, j + k)
  {
    forall e: nat ensures e in Shift(Shift(p, j), k) <==> e in Shift(p, j + k) {
      InShift(Shift(p, j), k, e);
      InShift(p, j + k, e);
      if e >= k { InShift(p, j, e - k); }
    }
  }

  lemma ShiftZero(p: Poly)
    ensures Shift(p, 0) == p
  {
    forall e: nat ensures e in Shift(p, 0) <==> e in p { InShift(p, 0, e); }
  }

  lemma TimesGAdd(a: Poly, b: Poly)
    ensures TimesG(Add(a, b)) == Add(TimesG(a), TimesG(b))
  {
    hide Add, Shift;
    ShiftAdd(a, b, 16);
    ShiftAdd(a, b, 12);
    ShiftAdd(a, b, 5);
    AddSwap(Shift(a, 16), Shift(b, 16), Shift(a, 12), Shift(b, 12));
    AddSwap(Shift(a, 5), Shift(b, 5), a, b);
    AddSwap(Add(Shift(a, 16), Shift(a, 12)), Add(Shift(b, 16), Shift(b, 12)), Add(Shift(a, 5), a), Add(Shift(b, 5), b));
  }

  lemma TimesGShift(q: Poly, k: nat)
    ensures TimesG(Shift(q, k)) == Shift(TimesG(q), k)
  {
    hide Add, Shift;
    ShiftAdd(Add(Shift(q, 16), Shift(q, 12)), Add(Shift(q, 5), q), k);
    ShiftAdd(Shift(q, 16), Shift(q, 12), k);
    ShiftAdd(Shift(q, 5), q, k);
    ShiftShift(q, 16, k);
    ShiftShift(q, k, 16);
    ShiftShift(q, 12, k);
    ShiftShift(q, k, 12);
    ShiftShift(q, 5, k);
    ShiftShift(q, k, 5);
  }

  lemma {:induction false} Largest(p: Poly) returns (m: nat)
    requires p != {}
    ensures m in p && forall e :: e in p ==> e <= m
    decreases |p|
  {
    var x :| x in p;
    if p == {x} {
      m := x;
    } else {
      var r := Largest(p - {x});
      m := if r > x then r else x;
      assert forall e :: e in p ==> e == x || e in p - {x};
    }
  }

  /** A multiple of the generator with degree below 16 is zero. */
  lemma SmallMultipleIsZero(q: Poly)
    ensures Below(TimesG(q), 16) ==> q == {}
  {
    if q != {} {
      var m := Largest(q);
      InShift(q, 16, m + 16);
      InShift(q, 12, m + 16);
      InShift(q, 5, m + 16);
      assert m + 16 in TimesG(q);
    }
  }

  lemma AddCancels(g: Poly, r: Poly, h: Poly, s: Poly)
    requires Add(g, r) == Add(h, s)
    ensures Add(g, h) == Add(r, s)
  {
    forall e: nat ensures e in Add(g, h) <==> e in Add(r, s) {
      assert e in Add(g, r) <==> e in Add(h, s);
    }
  }

  lemma AddSelf(a: Poly, b: Poly)
    requires Add(a, b) == {}
    ensures a == b
  {
    forall e: nat ensures e in a <==> e in b { assert e !in Add(a, b); }
  }

  /** The remainder is unique. */
  lemma RemainderUnique(p: Poly, q: Poly, r: Poly, q2: Poly, r2: Poly)
    requires p == Add(TimesG(q), r) && p == Add(TimesG(q2), r2) && Below(r, 16) && Below(r2, 16)
    ensures q == q2 && r == r2
  {
    AddCancels(TimesG(q), r, TimesG(q2), r2);
    TimesGAdd(q, q2);
    assert Below(Add(r, r2), 16);
    SmallMultipleIsZero(Add(q, q2));
    AddSelf(q, q2);
    assert TimesG({}) == {} by { assert Shift({}, 16) == {} && Shift({}, 12) == {} && Shift({}, 5) == {}; }
    AddSelf(r, r2);
  }
}
