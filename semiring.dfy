/** The weight algebra of rustfst (src/semirings/semiring.rs).

    A semiring is a record of its operations: `zero`, `one`, `plus` (the
    in-place `plus_assign` applied to a copy), `times`, and the conversions
    `make` (`W::new`) and `value` (`W::value`) between a weight and its
    underlying value of type `V` (`W::Type`). The algebraic laws that the
    trait's documentation demands are the ghost predicate `IsSemiring`. */
module Semirings {

  datatype Semiring<!V, !W> = Semiring(
    zero: W,
    one: W,
    plus: (W, W) -> W,
    times: (W, W) -> W,
    make: V -> W,
    value: W -> V)

  /** The extra operations of a weakly divisible semiring. */
  datatype DivisionOps<!W> = DivisionOps(inverse: W -> W, divide: (W, W) -> W)

  ghost predicate Associative<W(!new)>(op: (W, W) -> W) {
    forall a, b, c :: op(op(a, b), c) == op(a, op(b, c))
  }

  ghost predicate Commutative<W(!new)>(op: (W, W) -> W) {
    forall a, b :: op(a, b) == op(b, a)
  }

  ghost predicate Identity<W(!new)>(op: (W, W) -> W, e: W) {
    forall a :: op(a, e) == a && op(e, a) == a
  }

  ghost predicate Monoid<W(!new)>(op: (W, W) -> W, e: W) {
    Associative(op) && Identity(op, e)
  }

  ghost predicate CommutativeMonoid<W(!new)>(op: (W, W) -> W, e: W) {
    Monoid(op, e) && Commutative(op)
  }

  /** `mul` distributes over `add` from the left and from the right. */
  ghost predicate Distributes<W(!new)>(mul: (W, W) -> W, add: (W, W) -> W) {
    && (forall a, b, c :: mul(a, add(b, c)) == add(mul(a, b), mul(a, c)))
    && (forall a, b, c :: mul(add(a, b), c) == add(mul(a, c), mul(b, c)))
  }

  ghost predicate Annihilates<W(!new)>(mul: (W, W) -> W, z: W) {
    forall a :: mul(a, z) == z && mul(z, a) == z
  }

  /** (S, plus, zero) is a commutative monoid, (S, times, one) a monoid,
      times distributes over plus and zero annihilates under times. */
  ghost predicate IsSemiring<V, W(!new)>(sr: Semiring<V, W>) {
    && CommutativeMonoid(sr.plus, sr.zero)
    && Monoid(sr.times, sr.one)
    && Distributes(sr.times, sr.plus)
    && Annihilates(sr.times, sr.zero)
  }

  /** For every x and y with x + y != 0 some z has x == (x + y) * z. */
  ghost predicate WeaklyDivisible<V, W(!new)>(sr: Semiring<V, W>) {
    forall x, y :: sr.plus(x, y) != sr.zero ==> exists z :: x == sr.times(sr.plus(x, y), z)
  }

  /** `is_zero`: the weight equals `zero()`. */
  predicate IsZero<V, W(==)>(sr: Semiring<V, W>, w: W) {
    w == sr.zero
  }

  /** `is_one`: the weight equals `one()`. */
  predicate IsOne<V, W(==)>(sr: Semiring<V, W>, w: W) {
    w == sr.one
  }

  /** Under the laws `is_zero` recognises exactly the neutral elements of plus. */
  lemma IsZeroIffNeutral<V, W(!new)>(sr: Semiring<V, W>, w: W)
    requires IsSemiring(sr)
    ensures IsZero(sr, w) <==> forall x :: sr.plus(x, w) == x
  {
    if forall x :: sr.plus(x, w) == x {
      NeutralIsZero(sr, w);
    }
  }

  /** Under the laws `is_one` recognises exactly the neutral elements of times. */
  lemma IsOneIffNeutral<V, W(!new)>(sr: Semiring<V, W>, w: W)
    requires IsSemiring(sr)
    ensures IsOne(sr, w) <==> forall x :: sr.times(x, w) == x && sr.times(w, x) == x
  {
    if forall x :: sr.times(x, w) == x && sr.times(w, x) == x {
      NeutralIsOne(sr, w);
    }
  }

  lemma NeutralIsZero<V, W(!new)>(sr: Semiring<V, W>, w: W)
    requires IsSemiring(sr) && forall x :: sr.plus(x, w) == x
    ensures w == sr.zero
  {
    calc {
      sr.zero;
      sr.plus(sr.zero, w);
      sr.plus(w, sr.zero);
      w;
    }
  }

  lemma NeutralIsOne<V, W(!new)>(sr: Semiring<V, W>, w: W)
    requires IsSemiring(sr) && forall x :: sr.times(x, w) == x && sr.times(w, x) == x
    ensures w == sr.one
  {
    calc {
      sr.one;
      sr.times(sr.one, w);
      w;
    }
  }

  /** A weight held in a variable that the in-place mutators update. The
      pure operations `Plus`, `Times` and `Inverse` copy the weight, apply
      the mutator to the copy and return it, leaving this weight alone. */
  class Weight<V, W> {
    const sr: Semiring<V, W>
    var v: W

    constructor (sr: Semiring<V, W>, v: W)
      ensures this.sr == sr && this.v == v
    {
      this.sr := sr;
      this.v := v;
    }

    method PlusAssign(rhs: W)
      modifies this
      ensures v == sr.plus(old(v), rhs)
    {
      v := sr.plus(v, rhs);
    }

    method TimesAssign(rhs: W)
      modifies this
      ensures v == sr.times(old(v), rhs)
    {
      v := sr.times(v, rhs);
    }

    method InverseMut(d: DivisionOps<W>)
      modifies this
      ensures v == d.inverse(old(v))
    {
      v := d.inverse(v);
    }

    /** `plus`: what `plus_assign` would leave in a copy; this weight is untouched. */
    method Plus(rhs: W) returns (r: W)
      ensures r == sr.plus(v, rhs)
    {
      var w := new Weight(sr, v);
      w.PlusAssign(rhs);
      r := w.v;
    }

    /** `times`: what `times_assign` would leave in a copy; this weight is untouched. */
    method Times(rhs: W) returns (r: W)
      ensures r == sr.times(v, rhs)
    {
      var w := new Weight(sr, v);
      w.TimesAssign(rhs);
      r := w.v;
    }

    /** `inverse`: what `inverse_mut` would leave in a copy; this weight is untouched. */
    method Inverse(d: DivisionOps<W>) returns (r: W)
      ensures r == d.inverse(v)
    {
      var w := new Weight(sr, v);
      w.InverseMut(d);
      r := w.v;
    }
  }

  /** The Boolean semiring (or, and, false, true): the laws are consistent. */
  function BooleanSemiring(): (sr: Semiring<bool, bool>)
    ensures sr.zero == false && sr.one == true
  {
    Semiring(false, true, (a: bool, b: bool) => a || b, (a: bool, b: bool) => a && b, (v: bool) => v, (w: bool) => w)
  }

  lemma BooleanSemiringLaws()
    ensures IsSemiring(BooleanSemiring()) && WeaklyDivisible(BooleanSemiring())
  {
    var sr := BooleanSemiring();
    assert forall a: bool, b: bool :: sr.plus(a, b) == (a || b);
    assert forall a: bool, b: bool :: sr.times(a, b) == (a && b);
    assert CommutativeMonoid(sr.plus, sr.zero);
    assert Monoid(sr.times, sr.one);
    assert Distributes(sr.times, sr.plus);
    assert Annihilates(sr.times, sr.zero);
    forall x, y | sr.plus(x, y) != sr.zero
      ensures exists z :: x == sr.times(sr.plus(x, y), z)
    {
      assert x == sr.times(sr.plus(x, y), x);
    }
  }
}
