/** A group of prime order with canonical 32-byte encodings, given by its
    operations and the laws they obey; Ristretto is taken as such a group. */
module Group {
  import opened Bytes

  datatype Curve<!P> = Curve(
    order: nat,
    zero: P,
    base: P,
    add: (P, P) -> P,
    mul: (int, P) -> P,
    encode: P -> Bytes32,
    decode: Bytes32 -> Option<P>)

  /** Addition is associative and commutative with the identity. */
  predicate AddLaw<P(==)>(g: Curve<P>, p: P, q: P, r: P)
  {
    && g.add(g.add(p, q), r) == g.add(p, g.add(q, r))
    && g.add(p, q) == g.add(q, p)
    && g.add(p, g.zero) == p
  }

  /** Scalar multiplication is repeated addition. */
  predicate MulLaw<P(==)>(g: Curve<P>, a: int, b: int, p: P, q: P)
  {
    && g.mul(0, p) == g.zero && g.mul(1, p) == p
    && g.mul(a + b, p) == g.add(g.mul(a, p), g.mul(b, p))
    && g.mul(a, g.mul(b, p)) == g.mul(a * b, p)
    && g.mul(a, g.add(p, q)) == g.add(g.mul(a, p), g.mul(a, q))
  }

  /** Every point other than the identity has exactly the group's order. */
  predicate OrderLaw<P(==)>(g: Curve<P>, a: int, p: P)
  {
    && g.order > 1
    && g.mul(g.order, p) == g.zero
    && (g.mul(a, p) == g.zero && p != g.zero ==> a % g.order == 0)
  }

  /** Encodings are canonical: one per point, and nothing else decodes. */
  predicate EncodingLaw<P(==)>(g: Curve<P>, b: Bytes32, p: P)
  {
    && g.decode(g.encode(p)) == Some(p)
    && (g.decode(b) == Some(p) ==> g.encode(p) == b)
  }

  ghost predicate Lawful<P(!new)>(g: Curve<P>)
  {
    && 1 < g.order <= Pow256(32)
    && g.base != g.zero
    && (forall p, q, r :: AddLaw(g, p, q, r))
    && (forall a, b, p, q :: MulLaw(g, a, b, p, q))
    && (forall a, p :: OrderLaw(g, a, p))
    && (forall b, p :: EncodingLaw(g, b, p))
  }

  // ------------------------------------------------------ the laws, by instance

  lemma AddRules<P(!new)>(g: Curve<P>, p: P, q: P, r: P)
    requires Lawful(g)
    ensures g.add(g.add(p, q), r) == g.add(p, g.add(q, r))
    ensures g.add(p, q) == g.add(q, p)
    ensures g.add(p, g.zero) == p
  {
    assert AddLaw(g, p, q, r);
  }

  lemma MulRules<P(!new)>(g: Curve<P>, a: int, b: int, p: P, q: P)
    requires Lawful(g)
    ensures g.mul(0, p) == g.zero && g.mul(1, p) == p
    ensures g.mul(a + b, p) == g.add(g.mul(a, p), g.mul(b, p))
    ensures g.mul(a, g.mul(b, p)) == g.mul(a * b, p)
    ensures g.mul(a, g.add(p, q)) == g.add(g.mul(a, p), g.mul(a, q))
  {
    assert MulLaw(g, a, b, p, q);
  }

  lemma OrderRules<P(!new)>(g: Curve<P>, a: int, p: P)
    requires Lawful(g)
    ensures 1 < g.order <= Pow256(32) && g.base != g.zero
    ensures g.mul(g.order, p) == g.zero
    ensures g.mul(a, p) == g.zero && p != g.zero ==> a % g.order == 0
  {
    assert OrderLaw(g, a, p);
  }

  lemma EncodingRules<P(!new)>(g: Curve<P>, b: Bytes32, p: P)
    requires Lawful(g)
    ensures g.decode(g.encode(p)) == Some(p)
    ensures g.decode(b).Some? ==> g.encode(g.decode(b).value) == b
  {
    assert EncodingLaw(g, b, p);
    if g.decode(b).Some? { assert EncodingLaw(g, b, g.decode(b).value); }
  }

  // ------------------------------------------------------------- consequences

  lemma MulZero<P(!new)>(g: Curve<P>, k: int)
    requires Lawful(g)
    ensures g.mul(k, g.zero) == g.zero
  {
    hide Lawful;
    MulRules(g, k, 0, g.base, g.base);
    assert k * 0 == 0;
  }

  /** Multiples of the order do not matter. */
  lemma MulMod<P(!new)>(g: Curve<P>, a: int, b: int, p: P)
    requires Lawful(g) && g.order > 0 && (a - b) % g.order == 0
    ensures g.mul(a, p) == g.mul(b, p)
  {
    hide Lawful;
    var k := (a - b) / g.order;
    assert a == b + k * g.order;
    MulRules(g, b, k * g.order, p, p);
    MulRules(g, k, g.order, p, p);
    OrderRules(g, 0, p);
    MulZero(g, k);
    AddRules(g, g.mul(b, p), p, p);
  }

  lemma SubSelf<P(!new)>(g: Curve<P>, p: P)
    requires Lawful(g)
    ensures g.add(p, g.mul(-1, p)) == g.zero && g.add(g.mul(-1, p), p) == g.zero
  {
    hide Lawful;
    MulRules(g, 1, -1, p, p);
    MulRules(g, -1, 1, p, p);
  }

  /** p - q = 0 only if p = q. */
  lemma SubZero<P(!new)>(g: Curve<P>, p: P, q: P)
    requires Lawful(g) && g.add(p, g.mul(-1, q)) == g.zero
    ensures p == q
  {
    hide Lawful;
    SubSelf(g, q);
    AddRules(g, p, g.mul(-1, q), q);
    AddRules(g, g.zero, q, q);
    AddRules(g, q, g.zero, q);
  }

  lemma MulSub<P(!new)>(g: Curve<P>, a: int, b: int, p: P)
    requires Lawful(g)
    ensures g.add(g.mul(a, p), g.mul(-1, g.mul(b, p))) == g.mul(a - b, p)
  {
    hide Lawful;
    MulRules(g, -1, b, p, p);
    MulRules(g, a, -1 * b, p, p);
    assert a + -1 * b == a - b;
  }

  /** (u + x) - (u + y) = x - y. */
  lemma CancelCommon<P(!new)>(g: Curve<P>, u: P, x: P, y: P)
    requires Lawful(g)
    ensures g.add(g.add(u, x), g.mul(-1, g.add(u, y))) == g.add(x, g.mul(-1, y))
  {
    hide Lawful;
    var nu, ny := g.mul(-1, u), g.mul(-1, y);
    MulRules(g, -1, 0, u, y);
    AddRules(g, u, x, u);
    AddRules(g, x, u, g.add(nu, ny));
    AddRules(g, u, nu, ny);
    SubSelf(g, u);
    AddRules(g, g.zero, ny, ny);
    AddRules(g, ny, ny, ny);
  }

  // --------------------------------------------------------- the laws' model

  /** The group of order two. */
  function ParityCurve(): Curve<bool>
  {
    Curve(
      2, false, true,
      (p: bool, q: bool) => p != q,
      (a: int, p: bool) => p && a % 2 == 1,
      (p: bool) => if p then seq(32, i => 2) else seq(32, i => 1),
      (b: Bytes32) => if b == seq(32, i => 2) then Some(true) else if b == seq(32, i => 1) then Some(false) else None)
  }

  lemma {:induction false} Pow256Grows(n: nat)
    requires n > 0
    ensures Pow256(n) >= 256
  {
    if n > 1 { Pow256Grows(n - 1); }
  }

  lemma ProductParity(a: int, b: int)
    ensures (a * b) % 2 == 1 <==> a % 2 == 1 && b % 2 == 1
  {
    var i, j := a / 2, b / 2;
    assert a == 2 * i + a % 2 && b == 2 * j + b % 2;
    assert a * b == 2 * (i * b + (a % 2) * j) + (a % 2) * (b % 2);
  }

  lemma ParityMulLaw(a: int, b: int, p: bool, q: bool)
    ensures MulLaw(ParityCurve(), a, b, p, q)
  {
    ProductParity(a, b);
  }

  lemma ParityEncodingLaw(b: Bytes32, p: bool)
    ensures EncodingLaw(ParityCurve(), b, p)
  {
    var one, two: Bytes32 := seq(32, i => 1), seq(32, i => 2);
    assert one[0] != two[0];
  }

  /** The laws are consistent. */
  lemma LawsHaveModel()
    ensures Lawful(ParityCurve())
  {
    hide Pow256;
    var g := ParityCurve();
    forall a, b, p, q ensures MulLaw(g, a, b, p, q) { ParityMulLaw(a, b, p, q); }
    forall b, p ensures EncodingLaw(g, b, p) { ParityEncodingLaw(b, p); }
    Pow256Grows(32);
  }
}
