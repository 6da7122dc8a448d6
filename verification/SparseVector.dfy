/** Sparse vectors as two parallel arrays hold them: gate-labelled numbers searched
    linearly from the front.  Directions, and points read as vectors, are such lists. */
module SparseVector {

  datatype Entry = Entry(gate: string, coeff: real)

  type Vec = seq<Entry>

  /** The first position of a gate, or |v| if the gate is missing. */
  function IndexOf(v: Vec, gate: string): (j: nat)
    ensures j <= |v| && (j < |v| ==> v[j].gate == gate)
    ensures forall i :: 0 <= i < j ==> v[i].gate != gate
  {
    if v == [] then 0
    else if v[0].gate == gate then 0
    else 1 + IndexOf(v[1..], gate)
  }

  /** The coefficient at a gate, with a missing gate read as 0. */
  function Coeff(v: Vec, gate: string): real {
    var j := IndexOf(v, gate);
    if j < |v| then v[j].coeff else 0.0
  }

  ghost predicate Distinct(v: Vec) {
    forall i, j :: 0 <= i < j < |v| ==> v[i].gate != v[j].gate
  }

  /** The sum of every coefficient listed for a gate. */
  function Total(v: Vec, gate: string): real {
    if v == [] then 0.0
    else
      var e := v[|v| - 1];
      Total(v[..|v| - 1], gate) + if e.gate == gate then e.coeff else 0.0
  }

  /** v with e added at the first matching gate, or listed last if there is none. */
  function AddOne(v: Vec, e: Entry): Vec {
    var j := IndexOf(v, e.gate);
    if j < |v| then v[j := Entry(e.gate, v[j].coeff + e.coeff)] else v + [e]
  }

  function AddInto(v: Vec, w: Vec): Vec {
    if w == [] then v else AddOne(AddInto(v, w[..|w| - 1]), w[|w| - 1])
  }

  /** Multiplication under a name, so that proofs can hold products fixed. */
  function Times(x: real, y: real): real {
    x * y
  }

  lemma TimesDistributes(x: real, y: real, z: real)
    ensures Times(x + y, z) == Times(x, z) + Times(y, z)
    ensures Times(z, x + y) == Times(z, x) + Times(z, y)
  {
  }

  lemma TimesCommutes(x: real, y: real)
    ensures Times(x, y) == Times(y, x)
  {
  }

  lemma TimesZero(x: real)
    ensures Times(x, 0.0) == 0.0
  {
  }

  lemma TimesAssociates(x: real, y: real, z: real)
    ensures Times(Times(x, y), z) == Times(y, Times(x, z))
  {
  }

  function Scale(v: Vec, factor: real): Vec {
    seq(|v|, i requires 0 <= i < |v| => Entry(v[i].gate, Times(v[i].coeff, factor)))
  }

  function Negate(v: Vec): Vec {
    seq(|v|, i requires 0 <= i < |v| => Entry(v[i].gate, -v[i].coeff))
  }

  function Dot(v: Vec, w: Vec): real {
    if v == [] then 0.0
    else Dot(v[..|v| - 1], w) + Times(v[|v| - 1].coeff, Coeff(w, v[|v| - 1].gate))
  }

  function NormSquared(v: Vec): real {
    if v == [] then 0.0
    else NormSquared(v[..|v| - 1]) + Times(v[|v| - 1].coeff, v[|v| - 1].coeff)
  }

  // ---------------------------------------------------------------------------
  // Addition
  // ---------------------------------------------------------------------------

  lemma IndexOfIs(v: Vec, gate: string, j: nat)
    requires j <= |v| && (j < |v| ==> v[j].gate == gate)
    requires forall i :: 0 <= i < j ==> v[i].gate != gate
    ensures IndexOf(v, gate) == j
  {
  }

  lemma CoeffAddOne(v: Vec, e: Entry, g: string)
    ensures Coeff(AddOne(v, e), g) == Coeff(v, g) + if g == e.gate then e.coeff else 0.0
  {
    var j, k := IndexOf(v, e.gate), IndexOf(v, g);
    if g == e.gate {
      IndexOfIs(AddOne(v, e), g, j);
    } else if k < |v| {
      IndexOfIs(AddOne(v, e), g, k);
    } else {
      IndexOfIs(AddOne(v, e), g, |AddOne(v, e)|);
    }
  }

  /** Adding w changes every coefficient by everything w lists for that gate. */
  lemma {:induction false} CoeffAddInto(v: Vec, w: Vec, g: string)
    ensures Coeff(AddInto(v, w), g) == Coeff(v, g) + Total(w, g)
  {
    if w != [] {
      CoeffAddInto(v, w[..|w| - 1], g);
      CoeffAddOne(AddInto(v, w[..|w| - 1]), w[|w| - 1], g);
    }
  }

  lemma {:induction false} TotalIsCoeff(w: Vec, g: string)
    requires Distinct(w)
    ensures Total(w, g) == Coeff(w, g)
  {
    if w != [] {
      var w', e := w[..|w| - 1], w[|w| - 1];
      TotalIsCoeff(w', g);
      var k := IndexOf(w', g);
      IndexOfIs(w, g, if k < |w'| then k else if e.gate == g then |w'| else |w|);
    }
  }

  /** Add is element-wise addition, for any vector v and any w with distinct gates. */
  lemma AddIsPointwise(v: Vec, w: Vec, g: string)
    requires Distinct(w)
    ensures Coeff(AddInto(v, w), g) == Coeff(v, g) + Coeff(w, g)
  {
    CoeffAddInto(v, w, g);
    TotalIsCoeff(w, g);
  }

  lemma {:induction false} TotalNegate(w: Vec, g: string)
    ensures Total(Negate(w), g) == -Total(w, g)
  {
    if w != [] {
      TotalNegate(w[..|w| - 1], g);
      assert Negate(w)[..|w| - 1] == Negate(w[..|w| - 1]);
    }
  }

  lemma SubtractIsPointwise(v: Vec, w: Vec, g: string)
    requires Distinct(w)
    ensures Coeff(AddInto(v, Negate(w)), g) == Coeff(v, g) - Coeff(w, g)
  {
    CoeffAddInto(v, Negate(w), g);
    TotalNegate(w, g);
    TotalIsCoeff(w, g);
  }

  /** Subtract undoes Add at every gate, whatever gates w repeats. */
  lemma SubtractUndoesAdd(v: Vec, w: Vec, g: string)
    ensures Coeff(AddInto(AddInto(v, w), Negate(w)), g) == Coeff(v, g)
  {
    CoeffAddInto(AddInto(v, w), Negate(w), g);
    CoeffAddInto(v, w, g);
    TotalNegate(w, g);
  }

  /** Add lists each gate once, keeps the gates of v in place and lists no others than w's. */
  lemma {:induction false} AddKeepsGates(v: Vec, w: Vec)
    requires Distinct(v)
    ensures Distinct(AddInto(v, w)) && |v| <= |AddInto(v, w)|
    ensures forall i :: 0 <= i < |v| ==> AddInto(v, w)[i].gate == v[i].gate
    ensures forall i :: |v| <= i < |AddInto(v, w)| ==> exists k :: 0 <= k < |w| && w[k].gate == AddInto(v, w)[i].gate
  {
    if w != [] {
      AddKeepsGates(v, w[..|w| - 1]);
      var u, e := AddInto(v, w[..|w| - 1]), w[|w| - 1];
      assert forall i :: 0 <= i < |u| ==> AddOne(u, e)[i].gate == u[i].gate;
      forall i | |v| <= i < |AddInto(v, w)|
        ensures exists k :: 0 <= k < |w| && w[k].gate == AddInto(v, w)[i].gate
      {
        if i < |u| {
          var k :| 0 <= k < |w| - 1 && w[..|w| - 1][k].gate == u[i].gate;
          assert w[k].gate == AddInto(v, w)[i].gate;
        } else {
          assert w[|w| - 1].gate == AddInto(v, w)[i].gate;
        }
      }
    }
  }

  // ---------------------------------------------------------------------------
  // Inner product
  // ---------------------------------------------------------------------------

  lemma {:induction false} DotUpdate(v: Vec, j: nat, delta: real, c: Vec)
    requires j < |v|
    ensures Dot(v[j := Entry(v[j].gate, v[j].coeff + delta)], c) == Dot(v, c) + Times(delta, Coeff(c, v[j].gate))
  {
    hide Times, Coeff;
    TimesDistributes(v[j].coeff, delta, Coeff(c, v[j].gate));
    var v', n := v[j := Entry(v[j].gate, v[j].coeff + delta)], |v| - 1;
    if j < n {
      DotUpdate(v[..n], j, delta, c);
      assert v'[..n] == v[..n][j := Entry(v[j].gate, v[j].coeff + delta)];
    } else {
      assert v'[..n] == v[..n];
    }
  }

  lemma DotAddOne(v: Vec, e: Entry, c: Vec)
    ensures Dot(AddOne(v, e), c) == Dot(v, c) + Times(e.coeff, Coeff(c, e.gate))
  {
    hide Times, Coeff;
    var j := IndexOf(v, e.gate);
    if j < |v| {
      DotUpdate(v, j, e.coeff, c);
    } else {
      assert (v + [e])[..|v|] == v;
    }
  }

  /** Dot with a single gate reads the coefficient there.  With DotAdditive and DotScale this
      fixes Dot on every pair of lists. */
  lemma DotUnit(g: string, w: Vec)
    ensures Dot([Entry(g, 1.0)], w) == Coeff(w, g)
  {
    assert [Entry(g, 1.0)][..0] == [];
  }

  /** The coefficient read is that of the first entry listed for the gate. */
  lemma CoeffIsFirst(v: Vec, g: string)
    ensures forall k :: 0 <= k < |v| && v[k].gate == g && (forall i :: 0 <= i < k ==> v[i].gate != g) ==>
              Coeff(v, g) == v[k].coeff
    ensures (forall k :: 0 <= k < |v| ==> v[k].gate != g) ==> Coeff(v, g) == 0.0
  {
  }

  /** Dot is additive in its first argument through Add, for all lists. */
  lemma {:induction false} DotAdditive(v: Vec, w: Vec, c: Vec)
    ensures Dot(AddInto(v, w), c) == Dot(v, c) + Dot(w, c)
  {
    hide Times, Coeff, AddOne;
    if w != [] {
      DotAdditive(v, w[..|w| - 1], c);
      DotAddOne(AddInto(v, w[..|w| - 1]), w[|w| - 1], c);
    }
  }

  lemma {:induction false} DotScale(v: Vec, factor: real, c: Vec)
    ensures Dot(Scale(v, factor), c) == Times(factor, Dot(v, c))
  {
    if v == [] {
      assert Times(factor, 0.0) == 0.0;
    } else {
      hide Times, Coeff;
      var n := |v| - 1;
      DotScale(v[..n], factor, c);
      assert Scale(v, factor)[..n] == Scale(v[..n], factor);
      var y := Coeff(c, v[n].gate);
      TimesDistributes(Dot(v[..n], c), Times(v[n].coeff, y), factor);
      TimesAssociates(v[n].coeff, factor, y);
    }
  }

  lemma CoeffScale(w: Vec, factor: real, g: string)
    ensures Coeff(Scale(w, factor), g) == Times(Coeff(w, g), factor)
  {
    IndexOfIs(Scale(w, factor), g, IndexOf(w, g));
  }

  lemma {:induction false} DotScaleRight(v: Vec, w: Vec, factor: real)
    ensures Dot(v, Scale(w, factor)) == Times(factor, Dot(v, w))
  {
    if v == [] {
      assert Times(factor, 0.0) == 0.0;
    } else {
      hide Times, Coeff, Scale;
      var n := |v| - 1;
      DotScaleRight(v[..n], w, factor);
      var y := Coeff(w, v[n].gate);
      CoeffScale(w, factor, v[n].gate);
      TimesDistributes(Dot(v[..n], w), Times(v[n].coeff, y), factor);
      TimesCommutes(v[n].coeff, Times(y, factor));
      TimesAssociates(y, factor, v[n].coeff);
      TimesCommutes(y, v[n].coeff);
    }
  }

  lemma CoeffPush(v: Vec, e: Entry, g: string)
    ensures Coeff(v + [e], g) == Coeff(v, g) + if IndexOf(v, g) == |v| && e.gate == g then e.coeff else 0.0
  {
    var k := IndexOf(v, g);
    IndexOfIs(v + [e], g, if k < |v| then k else if e.gate == g then |v| else |v| + 1);
  }

  /** What a new last entry of the second argument adds to a dot product. */
  lemma {:induction false} DotPush(w: Vec, v: Vec, e: Entry)
    requires Distinct(w) && IndexOf(v, e.gate) == |v|
    ensures Dot(w, v + [e]) == Dot(w, v) + Times(e.coeff, Coeff(w, e.gate))
  {
    if w == [] {
      assert Times(e.coeff, 0.0) == 0.0;
    } else {
      hide Times, Coeff;
      var n := |w| - 1;
      var x := if w[n].gate == e.gate then e.coeff else 0.0;
      var y := if w[n].gate == e.gate then w[n].coeff else 0.0;
      DotPush(w[..n], v, e);
      CoeffPush(v, e, w[n].gate);
      TimesDistributes(Coeff(v, w[n].gate), x, w[n].coeff);
      IndexOfIs(w[..n], w[n].gate, n);
      CoeffPush(w[..n], w[n], e.gate);
      TimesDistributes(Coeff(w[..n], e.gate), y, e.coeff);
      TimesZero(w[n].coeff);
      TimesZero(e.coeff);
      TimesCommutes(e.coeff, w[n].coeff);
      assert w[..n] + [w[n]] == w;
    }
  }

  /** Dot is symmetric for distinct gates listed in any two orders. */
  lemma {:induction false} DotSymmetric(v: Vec, w: Vec)
    requires Distinct(v) && Distinct(w)
    ensures Dot(v, w) == Dot(w, v)
  {
    if v == [] {
      DotEmpty(w);
    } else {
      var n := |v| - 1;
      DotSymmetric(v[..n], w);
      IndexOfIs(v[..n], v[n].gate, n);
      DotPush(w, v[..n], v[n]);
      assert v[..n] + [v[n]] == v;
    }
  }

  lemma {:induction false} DotEmpty(w: Vec)
    ensures Dot(w, []) == 0.0
  {
    if w != [] {
      DotEmpty(w[..|w| - 1]);
    }
  }

  lemma {:induction false} DotSelfPrefix(v: Vec, k: nat)
    requires Distinct(v) && k <= |v|
    ensures Dot(v[..k], v) == NormSquared(v[..k])
  {
    if k > 0 {
      DotSelfPrefix(v, k - 1);
      assert v[..k][..k - 1] == v[..k - 1];
      IndexOfIs(v, v[k - 1].gate, k - 1);
    }
  }

  /** The squared norm of a list is the sum of those of its parts, down to single entries. */
  lemma {:induction false} NormSquaredAdds(v: Vec, w: Vec)
    ensures NormSquared(v + w) == NormSquared(v) + NormSquared(w)
    ensures forall e :: NormSquared([e]) == e.coeff * e.coeff
  {
    forall e: Entry
      ensures NormSquared([e]) == e.coeff * e.coeff
    {
      assert [e][..0] == [];
    }
    if w == [] {
      assert v + w == v;
    } else {
      var n := |w| - 1;
      NormSquaredAdds(v, w[..n]);
      assert (v + w)[..|v + w| - 1] == v + w[..n];
    }
  }

  /** The two ways the library computes a squared norm agree. */
  lemma DotSelfIsNormSquared(v: Vec)
    requires Distinct(v)
    ensures Dot(v, v) == NormSquared(v)
  {
    DotSelfPrefix(v, |v|);
    assert v[..|v|] == v;
  }

  // ---------------------------------------------------------------------------
  // Norms
  // ---------------------------------------------------------------------------

  /** The squares of w's coefficients at the gates that v lists. */
  function MatchedSquares(v: Vec, w: Vec): real {
    if v == [] then 0.0
    else
      var b := Coeff(w, v[|v| - 1].gate);
      MatchedSquares(v[..|v| - 1], w) + Times(b, b)
  }

  lemma SquareNonNegative(x: real)
    ensures Times(x, x) >= 0.0
  {
  }

  lemma {:induction false} NormNonNegative(v: Vec)
    ensures NormSquared(v) >= 0.0
  {
    hide Times;
    if v != [] {
      NormNonNegative(v[..|v| - 1]);
      SquareNonNegative(v[|v| - 1].coeff);
    }
  }

  lemma {:induction false} MatchedEmpty(v: Vec)
    ensures MatchedSquares(v, []) == 0.0
  {
    if v != [] {
      MatchedEmpty(v[..|v| - 1]);
    }
  }

  /** Listing one more entry in w adds its square at most once. */
  lemma {:induction false} MatchedPush(v: Vec, w: Vec, e: Entry)
    requires Distinct(v)
    ensures MatchedSquares(v, w + [e]) <= MatchedSquares(v, w) + Times(e.coeff, e.coeff)
    ensures IndexOf(v, e.gate) == |v| ==> MatchedSquares(v, w + [e]) == MatchedSquares(v, w)
  {
    SquareNonNegative(e.coeff);
    if v != [] {
      var n := |v| - 1;
      MatchedPush(v[..n], w, e);
      CoeffPush(w, e, v[n].gate);
      SquareNonNegative(Coeff(w, v[n].gate));
      assert Times(0.0, 0.0) == 0.0;
      hide Times;
      CoeffPush(v[..n], v[n], e.gate);
      IndexOfIs(v[..n], v[n].gate, n);
    }
  }

  lemma {:induction false} MatchedBelowNorm(v: Vec, w: Vec)
    requires Distinct(v)
    ensures MatchedSquares(v, w) <= NormSquared(w)
  {
    hide Times;
    if w == [] {
      MatchedEmpty(v);
    } else {
      MatchedBelowNorm(v, w[..|w| - 1]);
      MatchedPush(v, w[..|w| - 1], w[|w| - 1]);
      assert w[..|w| - 1] + [w[|w| - 1]] == w;
    }
  }

  lemma SquareGrows(y: real, z: real)
    ensures y > z >= 0.0 ==> y * y > z * z
  {
    var d := y - z;
    assert y * y == z * z + 2.0 * (z * d) + d * d;
    assert z >= 0.0 && d > 0.0 ==> z * d >= 0.0;
    assert d > 0.0 ==> d * d > 0.0;
  }

  lemma TwiceProductSquared(x: real, p: real, q: real, m: real, a: real, b: real)
    requires m == a * b && x * x <= p * q
    ensures (2.0 * (x * m)) * (2.0 * (x * m)) <= 4.0 * ((p * (b * b)) * (q * (a * a)))
  {
    assert m * m >= 0.0;
    assert (x * x) * (m * m) <= (p * q) * (m * m);
    assert m * m == (a * a) * (b * b);
    assert (p * q) * ((a * a) * (b * b)) == (p * (b * b)) * (q * (a * a));
    assert (2.0 * (x * m)) * (2.0 * (x * m)) == 4.0 * ((x * x) * (m * m));
  }

  lemma TwiceProductBound(x: real, p: real, q: real, a: real, b: real)
    requires p >= 0.0 && q >= 0.0 && x * x <= p * q
    ensures 2.0 * (x * (a * b)) <= p * (b * b) + q * (a * a)
  {
    var m, u, t := a * b, p * (b * b), q * (a * a);
    var y, z := 2.0 * (x * m), u + t;
    TwiceProductSquared(x, p, q, m, a, b);
    assert (u - t) * (u - t) >= 0.0;
    assert z * z == (u - t) * (u - t) + 4.0 * (u * t);
    assert u >= 0.0 && t >= 0.0;
    SquareGrows(y, z);
  }

  /** One step of the Cauchy-Schwarz induction. */
  lemma SchwarzStep(x: real, p: real, q: real, a: real, b: real)
    requires p >= 0.0 && q >= 0.0 && Times(x, x) <= Times(p, q)
    ensures Times(x + Times(a, b), x + Times(a, b)) <= Times(p + Times(a, a), q + Times(b, b))
  {
    TwiceProductBound(x, p, q, a, b);
    var m := a * b;
    assert (x + m) * (x + m) == x * x + 2.0 * (x * m) + m * m;
    assert m * m == (a * a) * (b * b);
    assert (p + a * a) * (q + b * b) == p * q + p * (b * b) + q * (a * a) + (a * a) * (b * b);
  }

  lemma {:induction false} MatchedNonNegative(v: Vec, w: Vec)
    ensures MatchedSquares(v, w) >= 0.0
  {
    hide Times;
    if v != [] {
      MatchedNonNegative(v[..|v| - 1], w);
      SquareNonNegative(Coeff(w, v[|v| - 1].gate));
    }
  }

  lemma {:induction false} SchwarzMatched(v: Vec, w: Vec)
    ensures Times(Dot(v, w), Dot(v, w)) <= Times(NormSquared(v), MatchedSquares(v, w))
  {
    if v != [] {
      hide Times, Coeff;
      var n := |v| - 1;
      SchwarzMatched(v[..n], w);
      NormNonNegative(v[..n]);
      MatchedNonNegative(v[..n], w);
      SchwarzStep(Dot(v[..n], w), NormSquared(v[..n]), MatchedSquares(v[..n], w), v[n].coeff, Coeff(w, v[n].gate));
    }
  }

  lemma TimesMonotone(x: real, y: real, z: real)
    requires x >= 0.0 && y <= z
    ensures Times(x, y) <= Times(x, z)
  {
  }

  /** Cauchy-Schwarz for gate-matched sums. */
  lemma CauchySchwarz(v: Vec, w: Vec)
    requires Distinct(v)
    ensures Times(Dot(v, w), Dot(v, w)) <= Times(NormSquared(v), NormSquared(w))
  {
    hide Times;
    SchwarzMatched(v, w);
    MatchedBelowNorm(v, w);
    NormNonNegative(v);
    TimesMonotone(NormSquared(v), MatchedSquares(v, w), NormSquared(w));
  }

  lemma {:induction false} NormScale(v: Vec, factor: real)
    ensures NormSquared(Scale(v, factor)) == Times(Times(factor, factor), NormSquared(v))
  {
    if v == [] {
      assert Times(Times(factor, factor), 0.0) == 0.0;
    } else {
      hide Times;
      var n := |v| - 1;
      NormScale(v[..n], factor);
      assert Scale(v, factor)[..n] == Scale(v[..n], factor);
      var x := v[n].coeff;
      SquareOfProduct(x, factor);
      TimesDistributes(NormSquared(v[..n]), Times(x, x), Times(factor, factor));
    }
  }

  lemma SquareOfProduct(x: real, y: real)
    ensures Times(Times(x, y), Times(x, y)) == Times(Times(y, y), Times(x, x))
  {
    assert (x * y) * (x * y) == (y * y) * (x * x);
  }

  /** v as Normalize leaves it, root being the square root of its squared norm. */
  function Normalized(v: Vec, root: real): Vec {
    if root != 0.0 then Scale(v, 1.0 / root) else v
  }

  ghost predicate IsNorm(root: real, v: Vec) {
    root >= 0.0 && Times(root, root) == NormSquared(v)
  }

  /** A normalized direction has norm one, unless every coefficient was zero. */
  lemma NormalizedHasUnitNorm(v: Vec, root: real)
    requires IsNorm(root, v)
    ensures NormSquared(Normalized(v, root)) == if NormSquared(v) == 0.0 then 0.0 else 1.0
  {
    if root != 0.0 {
      NormScale(v, 1.0 / root);
      var r := 1.0 / root;
      assert r * root == 1.0;
      assert (r * r) * (root * root) == (r * root) * (r * root);
      assert root * root != 0.0;
    }
  }

  /** A vector has one norm, and it is not negative. */
  lemma NormIsUnique(v: Vec, p: real, q: real)
    requires IsNorm(p, v) && IsNorm(q, v)
    ensures p == q >= 0.0
  {
    SquareGrows(p, q);
    SquareGrows(q, p);
  }

  /** Normalizing divides: the norm times the new coefficients is the old vector, so that
      signs and proportions stay; a zero vector is left as it is. */
  lemma NormalizedTimesNorm(v: Vec, root: real)
    requires IsNorm(root, v)
    ensures root > 0.0 ==> Scale(Normalized(v, root), root) == v
    ensures root == 0.0 ==> Normalized(v, root) == v
  {
    if root > 0.0 {
      forall k | 0 <= k < |v|
        ensures Scale(Normalized(v, root), root)[k] == v[k]
      {
        DividedTimes(v[k].coeff, root);
      }
    }
  }

  lemma DividedTimes(x: real, root: real)
    requires root != 0.0
    ensures Times(Times(x, 1.0 / root), root) == x
    ensures root * Times(x, 1.0 / root) == x
  {
    assert (1.0 / root) * root == 1.0;
    assert x * ((1.0 / root) * root) == x * (1.0 / root) * root;
  }

  /** Whatever the two directions were, normalized they have a dot product in [-1, 1]. */
  lemma NormalizedDotInUnitInterval(v: Vec, w: Vec, p: real, q: real)
    requires Distinct(v) && IsNorm(p, v) && IsNorm(q, w)
    ensures -1.0 <= Dot(Normalized(v, p), Normalized(w, q)) <= 1.0
  {
    hide Dot, NormSquared, Times, IsNorm;
    var a, b := Normalized(v, p), Normalized(w, q);
    assert Distinct(a);
    CauchySchwarz(a, b);
    NormalizedHasUnitNorm(v, p);
    NormalizedHasUnitNorm(w, q);
    SquareAtMostOne(Dot(a, b), NormSquared(a), NormSquared(b));
  }

  lemma SquareAtMostOne(d: real, p: real, q: real)
    requires p in {0.0, 1.0} && q in {0.0, 1.0} && Times(d, d) <= Times(p, q)
    ensures -1.0 <= d <= 1.0
  {
    SquareGrows(d, 1.0);
    SquareGrows(-d, 1.0);
    assert (-d) * (-d) == d * d;
  }

  lemma NegateScale(w: Vec, s: real)
    ensures Negate(Scale(w, s)) == Scale(w, -s)
  {
    forall i | 0 <= i < |w|
      ensures Negate(Scale(w, s))[i] == Scale(w, -s)[i]
    {
      assert -(w[i].coeff * s) == w[i].coeff * (-s);
    }
  }

  lemma QuotientTimes(x: real, y: real)
    requires y != 0.0
    ensures Times(-(x / y), y) == -x
  {
  }

  /** Subtracting from v its projection on w leaves a direction orthogonal to w. */
  lemma ResidualIsOrthogonal(v: Vec, w: Vec)
    requires Distinct(w) && NormSquared(w) != 0.0
    ensures Dot(AddInto(v, Negate(Scale(w, Dot(v, w) / NormSquared(w)))), w) == 0.0
  {
    var s := Dot(v, w) / NormSquared(w);
    NegateScale(w, s);
    DotAdditive(v, Scale(w, -s), w);
    DotScale(w, -s, w);
    DotSelfIsNormSquared(w);
    QuotientTimes(Dot(v, w), NormSquared(w));
  }

  // ---------------------------------------------------------------------------
  // Axes: an offset vector and a direction vector
  // ---------------------------------------------------------------------------

  /** off with e added at the first matching gate; a gate off does not list is dropped. */
  function ShiftOne(off: Vec, e: Entry): Vec {
    var j := IndexOf(off, e.gate);
    if j < |off| then off[j := Entry(e.gate, off[j].coeff + e.coeff)] else off
  }

  function ShiftBy(off: Vec, d: Vec): Vec {
    if d == [] then off else ShiftOne(ShiftBy(off, d[..|d| - 1]), d[|d| - 1])
  }

  ghost predicate SameGates(v: Vec, w: Vec) {
    |v| == |w| && forall i :: 0 <= i < |v| ==> v[i].gate == w[i].gate
  }

  lemma SameGatesSameIndex(v: Vec, w: Vec, g: string)
    requires SameGates(v, w)
    ensures IndexOf(v, g) == IndexOf(w, g)
  {
    IndexOfIs(v, g, IndexOf(w, g));
  }

  /** A shift moves the first entry of each gate by everything d lists for it. */
  lemma {:induction false} ShiftAt(off: Vec, d: Vec, j: nat)
    requires j < |off|
    ensures SameGates(ShiftBy(off, d), off)
    ensures ShiftBy(off, d)[j].coeff ==
            off[j].coeff + if IndexOf(off, off[j].gate) == j then Total(d, off[j].gate) else 0.0
  {
    if d != [] {
      var n := |d| - 1;
      ShiftAt(off, d[..n], j);
      SameGatesSameIndex(ShiftBy(off, d[..n]), off, d[n].gate);
    }
  }

  /** Shifted is affine: at every gate of the axis it adds the direction's coefficient. */
  lemma ShiftIsPointwise(off: Vec, d: Vec, g: string)
    requires Distinct(d) && IndexOf(off, g) < |off|
    ensures SameGates(ShiftBy(off, d), off) && Coeff(ShiftBy(off, d), g) == Coeff(off, g) + Coeff(d, g)
  {
    var j := IndexOf(off, g);
    ShiftAt(off, d, j);
    SameGatesSameIndex(ShiftBy(off, d), off, g);
    TotalIsCoeff(d, g);
  }

  lemma {:induction false} TotalUpdate(v: Vec, j: nat, delta: real, g: string)
    requires j < |v|
    ensures Total(v[j := Entry(v[j].gate, v[j].coeff + delta)], g) == Total(v, g) + if v[j].gate == g then delta else 0.0
  {
    var v', n := v[j := Entry(v[j].gate, v[j].coeff + delta)], |v| - 1;
    if j < n {
      TotalUpdate(v[..n], j, delta, g);
      assert v'[..n] == v[..n][j := v'[j]];
    } else {
      assert v'[..n] == v[..n];
    }
  }

  lemma TotalAddOne(v: Vec, e: Entry, g: string)
    ensures Total(AddOne(v, e), g) == Total(v, g) + if e.gate == g then e.coeff else 0.0
  {
    var j := IndexOf(v, e.gate);
    if j < |v| {
      TotalUpdate(v, j, e.coeff, g);
    } else {
      assert (v + [e])[..|v|] == v;
    }
  }

  lemma {:induction false} TotalAddInto(v: Vec, w: Vec, g: string)
    ensures Total(AddInto(v, w), g) == Total(v, g) + Total(w, g)
  {
    hide AddOne;
    if w != [] {
      TotalAddInto(v, w[..|w| - 1], g);
      TotalAddOne(AddInto(v, w[..|w| - 1]), w[|w| - 1], g);
    }
  }

  lemma {:induction false} ShiftKeepsGates(off: Vec, d: Vec)
    ensures SameGates(ShiftBy(off, d), off)
  {
    if d != [] {
      ShiftKeepsGates(off, d[..|d| - 1]);
    }
  }

  /** Shifting by d1 and then by d2 is shifting once by their sum, entry for entry,
      whatever gates the axis and the directions list or repeat. */
  lemma ShiftTwiceIsShiftBySum(off: Vec, d1: Vec, d2: Vec)
    ensures ShiftBy(ShiftBy(off, d1), d2) == ShiftBy(off, AddInto(d1, d2))
  {
    var once, twice, sum := ShiftBy(off, d1), ShiftBy(ShiftBy(off, d1), d2), ShiftBy(off, AddInto(d1, d2));
    ShiftKeepsGates(off, d1);
    ShiftKeepsGates(once, d2);
    ShiftKeepsGates(off, AddInto(d1, d2));
    forall j | 0 <= j < |off|
      ensures twice[j] == sum[j]
    {
      var g := off[j].gate;
      ShiftAt(off, d1, j);
      ShiftAt(once, d2, j);
      ShiftAt(off, AddInto(d1, d2), j);
      SameGatesSameIndex(once, off, g);
      TotalAddInto(d1, d2, g);
    }
  }

  /** ToPoint may run: it indexes the direction's gates by position in the offset. */
  ghost predicate ToPointInRange(off: Vec, dir: Vec) {
    dir == [] || |off| <= |dir|
  }

  /** The amplitude that ToPoint reads for entry i: that of the direction's own i-th gate. */
  function Amplitude(dir: Vec, i: nat): real
    requires dir == [] || i < |dir|
  {
    if dir == [] then 0.0 else Coeff(dir, dir[i].gate)
  }

  /** What ToPoint computes: the amplitude is looked up at the direction's own i-th gate. */
  function PointAt(off: Vec, dir: Vec, t: real): (p: Vec)
    requires ToPointInRange(off, dir)
    ensures |p| == |off|
  {
    seq(|off|, i requires 0 <= i < |off| => Entry(off[i].gate, off[i].coeff + Times(t, Amplitude(dir, i))))
  }

  /** The voltage of entry i takes the coefficient first listed for the direction's i-th gate. */
  lemma PointReadsOwnGate(off: Vec, dir: Vec, t: real, i: nat, k: nat)
    requires ToPointInRange(off, dir) && i < |off| && k <= i && i < |dir|
    requires dir[k].gate == dir[i].gate && forall j :: 0 <= j < k ==> dir[j].gate != dir[i].gate
    ensures PointAt(off, dir, t)[i] == Entry(off[i].gate, off[i].coeff + t * dir[k].coeff)
  {
    IndexOfIs(dir, dir[i].gate, k);
  }

  /** What ToPoint promises: offset + coordinate * amplitude at every gate. */
  function PromisedPoint(off: Vec, dir: Vec, t: real): Vec {
    seq(|off|, i requires 0 <= i < |off| => Entry(off[i].gate, off[i].coeff + Times(t, Coeff(dir, off[i].gate))))
  }

  /** The direction lists the gates of the offset first and in the same order. */
  ghost predicate Aligned(off: Vec, dir: Vec) {
    dir == [] || (|off| <= |dir| && forall i :: 0 <= i < |off| ==> dir[i].gate == off[i].gate)
  }

  /** The direction that lists amplitude 1 for gate g and 0 for every other. */
  function UnitAt(dir: Vec, g: string): Vec {
    seq(|dir|, i requires 0 <= i < |dir| => Entry(dir[i].gate, if dir[i].gate == g then 1.0 else 0.0))
  }

  /** ToPoint keeps its promise for every amplitude its gates could carry, and every
      coordinate, exactly when the direction is aligned with the offset. */
  lemma ToPointMeetsPromiseIffAligned(off: Vec, dir: Vec)
    requires ToPointInRange(off, dir)
    ensures Aligned(off, dir) <==>
            forall dir': Vec, t: real :: SameGates(dir', dir) ==> PointAt(off, dir', t) == PromisedPoint(off, dir', t)
  {
    if Aligned(off, dir) {
      forall dir': Vec, t: real | SameGates(dir', dir)
        ensures PointAt(off, dir', t) == PromisedPoint(off, dir', t)
      {
        AlignedMeetsPromise(off, dir', t);
      }
    } else {
      var i :| 0 <= i < |off| && dir[i].gate != off[i].gate;
      MisalignedBreaksPromise(off, dir, i);
    }
  }

  lemma AlignedMeetsPromise(off: Vec, dir: Vec, t: real)
    requires Aligned(off, dir)
    ensures PointAt(off, dir, t) == PromisedPoint(off, dir, t)
  {
    hide Times;
    forall i | 0 <= i < |off|
      ensures PointAt(off, dir, t)[i] == PromisedPoint(off, dir, t)[i]
    {
    }
  }

  /** A direction whose i-th gate is not the offset's breaks the promise at coordinate 1. */
  lemma MisalignedBreaksPromise(off: Vec, dir: Vec, i: nat)
    requires ToPointInRange(off, dir) && dir != [] && i < |off| && dir[i].gate != off[i].gate
    ensures var dir' := UnitAt(dir, dir[i].gate);
            SameGates(dir', dir) && PointAt(off, dir', 1.0) != PromisedPoint(off, dir', 1.0)
  {
    var g := dir[i].gate;
    var dir' := UnitAt(dir, g);
    assert dir'[i].gate == g;
    assert Coeff(dir', g) == 1.0;
    assert Coeff(dir', off[i].gate) == 0.0;
    assert PointAt(off, dir', 1.0)[i].coeff == off[i].coeff + 1.0;
    assert PromisedPoint(off, dir', 1.0)[i].coeff == off[i].coeff;
  }

  /** The direction of the axis through two points: values are paired by position. */
  function Between(off: Vec, point: Vec): Vec
    requires |off| <= |point|
  {
    seq(|off|, i requires 0 <= i < |off| => Entry(off[i].gate, point[i].coeff - off[i].coeff))
  }

  /** The point a fraction t of the way from off to point, gate by gate. */
  function Affine(off: Vec, point: Vec, t: real): Vec
    requires |off| <= |point|
  {
    seq(|off|, i requires 0 <= i < |off| => Entry(off[i].gate, off[i].coeff + Times(t, point[i].coeff - off[i].coeff)))
  }

  lemma AffineEnds(off: Vec, point: Vec)
    requires |off| <= |point|
    ensures Affine(off, point, 0.0) == off
    ensures SameGates(off, point) ==> Affine(off, point, 1.0) == point
  {
  }

  /** On an axis through two points, coordinate t is the affine combination of the two. */
  lemma PointOnAxisThrough(off: Vec, point: Vec, t: real)
    requires Distinct(off) && |off| <= |point|
    ensures PointAt(off, Between(off, point), t) == Affine(off, point, t)
  {
    hide Times;
    var dir := Between(off, point);
    forall i | 0 <= i < |off|
      ensures PointAt(off, dir, t)[i] == Affine(off, point, t)[i]
    {
      IndexOfIs(dir, dir[i].gate, i);
    }
  }

  lemma CoefficientAt(off: Vec, dir: Vec, t: real, i: nat)
    requires Distinct(off) && SameGates(off, dir) && i < |off|
    ensures PointAt(off, dir, t)[i] == Entry(off[i].gate, off[i].coeff + Times(t, dir[i].coeff))
  {
    hide Times;
    IndexOfIs(dir, dir[i].gate, i);
  }

  lemma ShiftByAlignedAt(p: Vec, s: Vec, i: nat)
    requires Distinct(p) && SameGates(p, s) && i < |p|
    ensures SameGates(ShiftBy(p, s), p)
    ensures ShiftBy(p, s)[i].coeff == p[i].coeff + s[i].coeff
  {
    assert Distinct(s);
    IndexOfIs(p, p[i].gate, i);
    IndexOfIs(s, s[i].gate, i);
    TotalIsCoeff(s, p[i].gate);
    ShiftAt(p, s, i);
    hide Total, ShiftBy, IndexOf;
  }

  /** ToPoint of a shifted axis is the shift of its point, for every shift and every layout. */
  lemma PointOfShifted(off: Vec, d: Vec, dir: Vec, t: real)
    requires ToPointInRange(off, dir)
    ensures |ShiftBy(off, d)| == |off|
    ensures PointAt(ShiftBy(off, d), dir, t) == ShiftBy(PointAt(off, dir, t), d)
  {
    hide Times, Amplitude;
    var p, s := PointAt(off, dir, t), ShiftBy(off, d);
    ShiftKeepsGates(off, d);
    ShiftKeepsGates(p, d);
    forall i | 0 <= i < |off|
      ensures PointAt(s, dir, t)[i] == ShiftBy(p, d)[i]
    {
      ShiftAt(off, d, i);
      ShiftAt(p, d, i);
      SameGatesSameIndex(p, off, off[i].gate);
    }
  }

  /** Moving along the axis: the point at t + u is the point at t shifted by u times
      the direction, when the axis lists distinct, aligned gates. */
  lemma PointMovesAlongDirection(off: Vec, dir: Vec, t: real, u: real)
    requires Distinct(off) && SameGates(off, dir)
    ensures PointAt(off, dir, t + u) == ShiftBy(PointAt(off, dir, t), Scale(dir, u))
  {
    var p := PointAt(off, dir, t);
    ShiftKeepsGates(p, Scale(dir, u));
    forall i | 0 <= i < |off|
      ensures PointAt(off, dir, t + u)[i] == ShiftBy(p, Scale(dir, u))[i]
    {
      CoefficientAt(off, dir, t, i);
      CoefficientAt(off, dir, t + u, i);
      ShiftByAlignedAt(p, Scale(dir, u), i);
      TimesDistributes(t, u, dir[i].coeff);
      TimesCommutes(u, dir[i].coeff);
      hide Times, PointAt, ShiftBy;
    }
  }

  /** t * (c * u) + c * u is (t * u + u) * c. */
  lemma TwoScales(t: real, u: real, c: real)
    ensures Times(t, Times(c, u)) + Times(c, u) == Times(Times(t, u) + u, c)
  {
    TimesAssociates(u, t, c);
    TimesCommutes(t, u);
    TimesDistributes(Times(t, u), u, c);
    TimesCommutes(u, c);
    hide Times;
  }

  /** Shifting by an axis's own scaled direction: Scale has multiplied the axis's direction
      too, so the point moves on by u from coordinate t * u, not from t. */
  lemma ScaledPointMoves(off: Vec, dir: Vec, t: real, u: real)
    requires Distinct(off) && SameGates(off, dir)
    ensures ToPointInRange(off, Scale(dir, u))
    ensures ShiftBy(PointAt(off, Scale(dir, u), t), Scale(dir, u)) == PointAt(off, dir, Times(t, u) + u)
  {
    hide Times, PointAt, ShiftBy, Distinct;
    var scaled, p := Scale(dir, u), PointAt(off, Scale(dir, u), t);
    DistinctPoint(off, scaled, t);
    ShiftKeepsGates(p, scaled);
    forall i | 0 <= i < |off|
      ensures PointAt(off, dir, Times(t, u) + u)[i] == ShiftBy(p, scaled)[i]
    {
      CoefficientAt(off, scaled, t, i);
      CoefficientAt(off, dir, Times(t, u) + u, i);
      ShiftByAlignedAt(p, scaled, i);
      TwoScales(t, u, dir[i].coeff);
    }
  }

  lemma DistinctPoint(off: Vec, dir: Vec, t: real)
    requires Distinct(off) && SameGates(off, dir)
    ensures Distinct(PointAt(off, dir, t)) && SameGates(off, PointAt(off, dir, t))
  {
    hide Times;
  }
}
