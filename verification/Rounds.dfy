/** The loop of Add and Subtract on vectors, round by round: also when the two directions
    share the array of their values, so that the loop reads what it has written. */
module Rounds {
  import opened SparseVector

  function Signed(x: real, negate: bool): real {
    if negate then -x else x
  }

  function SignedVec(w: Vec, negate: bool): Vec {
    if negate then Negate(w) else w
  }

  /** v after i rounds over w.  With shared values round i reads the i-th coefficient of what
      the rounds before it have made of v. */
  function AfterRounds(v: Vec, w: Vec, i: nat, shared: bool, negate: bool): (r: Vec)
    requires i <= |w| && (shared ==> |w| <= |v|)
    ensures |v| <= |r|
  {
    if i == 0 then v
    else
      var u := AfterRounds(v, w, i - 1, shared, negate);
      AddOne(u, Entry(w[i - 1].gate, Signed(if shared then u[i - 1].coeff else w[i - 1].coeff, negate)))
  }

  lemma AddIntoEnds(v: Vec, w: Vec, negate: bool)
    ensures AddInto(v, SignedVec(w[..0], negate)) == v
    ensures AddInto(v, SignedVec(w[..|w|], negate)) == AddInto(v, SignedVec(w, negate))
  {
    assert SignedVec(w[..0], negate) == [] && w[..|w|] == w;
  }

  lemma AddIntoStep(v: Vec, w: Vec, i: nat, negate: bool)
    requires i < |w|
    ensures AddInto(v, SignedVec(w[..i + 1], negate)) ==
            AddOne(AddInto(v, SignedVec(w[..i], negate)), Entry(w[i].gate, Signed(w[i].coeff, negate)))
  {
    hide AddOne;
    var u := SignedVec(w[..i + 1], negate);
    assert u[..i] == SignedVec(w[..i], negate);
  }

  /** With values of its own, w is added (or subtracted) as it is. */
  lemma {:induction false} SeparateRounds(v: Vec, w: Vec, i: nat, negate: bool)
    requires i <= |w|
    ensures AfterRounds(v, w, i, false, negate) == AddInto(v, SignedVec(w[..i], negate))
  {
    hide SignedVec, AddOne;
    AddIntoEnds(v, w, negate);
    if i > 0 {
      SeparateRounds(v, w, i - 1, negate);
      AddIntoStep(v, w, i - 1, negate);
    }
  }

  /** Two vectors on one array of values. */
  ghost predicate SharedValues(v: Vec, w: Vec) {
    |v| == |w| && forall k :: 0 <= k < |v| ==> v[k].coeff == w[k].coeff
  }

  /** None of the first n rounds changes a coefficient that a later round reads. */
  ghost predicate ReadsFirst(v: Vec, w: Vec, n: nat)
    requires n <= |w|
  {
    forall k :: 0 <= k < n ==> w[k].coeff == 0.0 || IndexOf(v, w[k].gate) <= k || IndexOf(v, w[k].gate) == |v|
  }

  lemma OwnReadsFirst(v: Vec)
    ensures SharedValues(v, v) && ReadsFirst(v, v, |v|)
  {
  }

  lemma PrefixIndex(v: Vec, u: Vec, g: string)
    requires |v| <= |u| && forall k :: 0 <= k < |v| ==> u[k].gate == v[k].gate
    ensures IndexOf(v, g) < |v| ==> IndexOf(u, g) == IndexOf(v, g)
    ensures IndexOf(v, g) == |v| ==> IndexOf(u, g) >= |v|
  {
    if IndexOf(v, g) < |v| {
      IndexOfIs(u, g, IndexOf(v, g));
    }
  }

  /** What a round writes: the entry at the first matching gate of v, or one behind v. */
  lemma RoundAt(v: Vec, w: Vec, i: nat, shared: bool, negate: bool)
    requires i < |w| && (shared ==> |w| <= |v|)
    ensures var u, r, j := AfterRounds(v, w, i, shared, negate), AfterRounds(v, w, i + 1, shared, negate), IndexOf(v, w[i].gate);
      && (forall k :: 0 <= k < |v| && k != j ==> r[k] == u[k])
      && (j < |v| ==> r[j].coeff == u[j].coeff + Signed(if shared then u[i].coeff else w[i].coeff, negate))
    ensures forall k :: 0 <= k < |v| ==> AfterRounds(v, w, i + 1, shared, negate)[k].gate == v[k].gate
    decreases i, 1
  {
    hide Signed;
    GatesKept(v, w, i, shared, negate);
    PrefixIndex(v, AfterRounds(v, w, i, shared, negate), w[i].gate);
  }

  lemma {:induction false} GatesKept(v: Vec, w: Vec, i: nat, shared: bool, negate: bool)
    requires i <= |w| && (shared ==> |w| <= |v|)
    ensures forall k :: 0 <= k < |v| ==> AfterRounds(v, w, i, shared, negate)[k].gate == v[k].gate
    decreases i, 0
  {
    if i > 0 {
      RoundAt(v, w, i - 1, shared, negate);
    }
  }

  /** While no round changes what a later one reads, sharing the values makes no difference. */
  lemma {:induction false} SharedRounds(v: Vec, w: Vec, i: nat, negate: bool)
    requires SharedValues(v, w) && i <= |w| && ReadsFirst(v, w, i)
    ensures AfterRounds(v, w, i, true, negate) == AddInto(v, SignedVec(w[..i], negate))
    ensures forall k :: i <= k < |v| ==> AfterRounds(v, w, i, true, negate)[k].coeff == v[k].coeff
  {
    hide SignedVec, AddOne;
    AddIntoEnds(v, w, negate);
    if i > 0 {
      SharedRounds(v, w, i - 1, negate);
      AddIntoStep(v, w, i - 1, negate);
      RoundAt(v, w, i - 1, true, negate);
    }
  }

  lemma {:induction false} PositionKept(v: Vec, w: Vec, m: nat, n: nat, p: nat, negate: bool)
    requires m <= n <= |w| <= |v| && p < |v|
    requires forall r :: m <= r < n ==> IndexOf(v, w[r].gate) != p
    ensures AfterRounds(v, w, n, true, negate)[p] == AfterRounds(v, w, m, true, negate)[p]
    decreases n
  {
    hide AfterRounds;
    if m < n {
      PositionKept(v, w, m, n - 1, p, negate);
      RoundAt(v, w, n - 1, true, negate);
    }
  }

  lemma {:induction false} CoeffKept(v: Vec, w: Vec, m: nat, n: nat, g: string, negate: bool)
    requires m <= n <= |w| <= |v|
    requires forall r :: m <= r < n ==> w[r].gate != g
    ensures Coeff(AfterRounds(v, w, n, true, negate), g) == Coeff(AfterRounds(v, w, m, true, negate), g)
    decreases n
  {
    hide Coeff, AddOne, Signed;
    if m < n {
      CoeffKept(v, w, m, n - 1, g, negate);
      var u := AfterRounds(v, w, n - 1, true, negate);
      CoeffAddOne(u, Entry(w[n - 1].gate, Signed(u[n - 1].coeff, negate)), g);
    }
  }

  /** The coefficient of a gate after all rounds: what it was and what its round read. */
  lemma CoeffAfterRounds(v: Vec, w: Vec, i: nat, negate: bool)
    requires Distinct(w) && i < |w| <= |v|
    ensures Coeff(AfterRounds(v, w, |w|, true, negate), w[i].gate) ==
            Coeff(v, w[i].gate) + Signed(AfterRounds(v, w, i, true, negate)[i].coeff, negate)
  {
    hide Coeff, AddOne, Signed;
    var g, u := w[i].gate, AfterRounds(v, w, i, true, negate);
    CoeffKept(v, w, 0, i, g, negate);
    CoeffAddOne(u, Entry(g, Signed(u[i].coeff, negate)), g);
    CoeffKept(v, w, i + 1, |w|, g, negate);
  }

  lemma CoeffOfSum(v: Vec, w: Vec, i: nat, negate: bool)
    requires Distinct(w) && i < |w|
    ensures Coeff(AddInto(v, SignedVec(w, negate)), w[i].gate) == Coeff(v, w[i].gate) + Signed(w[i].coeff, negate)
  {
    hide AddInto, AddOne;
    IndexOfIs(w, w[i].gate, i);
    if negate {
      SubtractIsPointwise(v, w, w[i].gate);
    } else {
      AddIsPointwise(v, w, w[i].gate);
    }
  }

  /** The first round that does change what a later one reads spoils that later gate. */
  lemma SpoiledSum(v: Vec, w: Vec, k: nat, negate: bool)
    requires SharedValues(v, w) && Distinct(w) && k < |w| && ReadsFirst(v, w, k)
    requires w[k].coeff != 0.0 && k < IndexOf(v, w[k].gate) < |v|
    ensures AfterRounds(v, w, |w|, true, negate) != AddInto(v, SignedVec(w, negate))
  {
    hide AfterRounds, AddInto, Coeff, SignedVec;
    var i := IndexOf(v, w[k].gate);
    SharedRounds(v, w, k, negate);
    RoundAt(v, w, k, true, negate);
    forall r | k + 1 <= r < i
      ensures IndexOf(v, w[r].gate) != i
    {
      assert w[r].gate != w[k].gate;
    }
    PositionKept(v, w, k + 1, i, i, negate);
    CoeffAfterRounds(v, w, i, negate);
    CoeffOfSum(v, w, i, negate);
  }

  /** Add and Subtract on shared values give the sum or the difference if and only if no
      round changes what a later one reads: every gate with a non-zero coefficient is new to
      the receiver or listed there no later than in other. */
  lemma SharedSumIff(v: Vec, w: Vec, negate: bool)
    requires SharedValues(v, w) && Distinct(w)
    ensures AfterRounds(v, w, |w|, true, negate) == AddInto(v, SignedVec(w, negate)) <==> ReadsFirst(v, w, |w|)
  {
    hide AfterRounds, AddInto, SignedVec;
    if ReadsFirst(v, w, |w|) {
      SharedRounds(v, w, |w|, negate);
      AddIntoEnds(v, w, negate);
    } else {
      var k := FirstSpoiler(v, w, |w|);
      SpoiledSum(v, w, k, negate);
    }
  }

  /** Two gates listed in opposite orders on the values 1, 2: the second round reads the 3 that
      the first has written, and the sum at gate a is 4 instead of 3. */
  lemma CrossedGatesMisadd()
    ensures var v, w := [Entry("a", 1.0), Entry("b", 2.0)], [Entry("b", 1.0), Entry("a", 2.0)];
      && SharedValues(v, w) && Distinct(w)
      && Coeff(AfterRounds(v, w, |w|, true, false), "a") == 4.0
      && Coeff(v, "a") + Coeff(w, "a") == 3.0
  {
    var v, w := [Entry("a", 1.0), Entry("b", 2.0)], [Entry("b", 1.0), Entry("a", 2.0)];
    IndexOfIs(v, "a", 0);
    IndexOfIs(v, "b", 1);
    IndexOfIs(w, "a", 1);
    var u := AfterRounds(v, w, 1, true, false);
    assert u == [Entry("a", 1.0), Entry("b", 3.0)];
    IndexOfIs(u, "a", 0);
    var r := AfterRounds(v, w, 2, true, false);
    assert r == [Entry("a", 4.0), Entry("b", 3.0)];
    IndexOfIs(r, "a", 0);
  }

  lemma {:induction false} FirstSpoiler(v: Vec, w: Vec, n: nat) returns (k: nat)
    requires n <= |w| && !ReadsFirst(v, w, n)
    ensures k < n && ReadsFirst(v, w, k)
    ensures w[k].coeff != 0.0 && k < IndexOf(v, w[k].gate) < |v|
  {
    if ReadsFirst(v, w, n - 1) {
      k := n - 1;
    } else {
      k := FirstSpoiler(v, w, n - 1);
    }
  }

  // ---------------------------------------------------------------------------
  // When the receiver keeps its vector
  // ---------------------------------------------------------------------------

  /** Scale leaves the receiver's vector as it was just when the factor is 1 or all is 0. */
  lemma ScaleKeepsIff(v: Vec, factor: real)
    ensures Scale(v, factor) == v <==> factor == 1.0 || forall k :: 0 <= k < |v| ==> v[k].coeff == 0.0
  {
    forall k | 0 <= k < |v|
      ensures Scale(v, factor)[k] == v[k] <==> factor == 1.0 || v[k].coeff == 0.0
    {
      FixedByFactor(v[k].coeff, factor);
    }
    if Scale(v, factor) == v && factor != 1.0 {
      forall k | 0 <= k < |v|
        ensures v[k].coeff == 0.0
      {
        assert Scale(v, factor)[k] == v[k];
      }
    }
  }

  lemma FixedByFactor(x: real, factor: real)
    ensures Times(x, factor) == x <==> factor == 1.0 || x == 0.0
  {
    assert x * factor - x == x * (factor - 1.0);
    if x != 0.0 && factor != 1.0 {
      assert x * (factor - 1.0) != 0.0;
    }
  }

  /** Add at a position of v: the first entry of each gate changes by all that w lists for it. */
  lemma {:induction false} AddIntoAt(v: Vec, w: Vec, p: nat)
    requires p < |v|
    ensures |v| <= |AddInto(v, w)| && AddInto(v, w)[p].gate == v[p].gate
    ensures AddInto(v, w)[p].coeff ==
            v[p].coeff + if IndexOf(v, v[p].gate) == p then Total(w, v[p].gate) else 0.0
    decreases |w|
  {
    if w != [] {
      var before := w[..|w| - 1];
      AddIntoAt(v, before, p);
      forall k | 0 <= k < |v|
        ensures AddInto(v, before)[k].gate == v[k].gate
      {
        AddIntoAt(v, before, k);
      }
      PrefixIndex(v, AddInto(v, before), w[|w| - 1].gate);
    }
  }

  lemma {:induction false} AddIntoLength(v: Vec, w: Vec)
    ensures |v| <= |AddInto(v, w)|
    ensures |AddInto(v, w)| == |v| <==> forall k :: 0 <= k < |w| ==> IndexOf(v, w[k].gate) < |v|
    decreases |w|
  {
    hide Total, IndexOf;
    if w != [] {
      var before, e := w[..|w| - 1], w[|w| - 1];
      AddIntoLength(v, before);
      forall k | 0 <= k < |v|
        ensures AddInto(v, before)[k].gate == v[k].gate
      {
        AddIntoAt(v, before, k);
      }
      PrefixIndex(v, AddInto(v, before), e.gate);
      assert w == before + [e];
    }
  }

  /** Adding w changes nothing just when w lists no new gate and its coefficients for each gate
      add up to 0. */
  lemma AddIntoKeepsIff(v: Vec, w: Vec)
    ensures AddInto(v, w) == v
       <==> forall k :: 0 <= k < |w| ==> IndexOf(v, w[k].gate) < |v| && Total(w, w[k].gate) == 0.0
  {
    hide AddInto, Total, IndexOf;
    AddIntoLength(v, w);
    if AddInto(v, w) == v {
      forall k | 0 <= k < |w|
        ensures Total(w, w[k].gate) == 0.0
      {
        var p := IndexOf(v, w[k].gate);
        AddIntoAt(v, w, p);
      }
    }
    if forall k :: 0 <= k < |w| ==> IndexOf(v, w[k].gate) < |v| && Total(w, w[k].gate) == 0.0 {
      forall p | 0 <= p < |v|
        ensures AddInto(v, w)[p] == v[p]
      {
        AddIntoAt(v, w, p);
        TotalOfMissing(w, v[p].gate);
      }
      assert AddInto(v, w) == v;
    }
  }

  lemma SignedTotal(w: Vec, negate: bool, g: string)
    ensures Total(SignedVec(w, negate), g) == Signed(Total(w, g), negate)
  {
    if negate {
      TotalNegate(w, g);
    }
  }

  lemma SignedGates(w: Vec, negate: bool)
    ensures |SignedVec(w, negate)| == |w| && forall k :: 0 <= k < |w| ==> SignedVec(w, negate)[k].gate == w[k].gate
  {
  }

  lemma SignedKeepsIff(v: Vec, w: Vec, negate: bool)
    ensures AddInto(v, SignedVec(w, negate)) == v
       <==> forall k :: 0 <= k < |w| ==> IndexOf(v, w[k].gate) < |v| && Total(w, w[k].gate) == 0.0
  {
    hide AddInto, Total, IndexOf, SignedVec;
    var u := SignedVec(w, negate);
    AddIntoKeepsIff(v, u);
    SignedGates(w, negate);
    forall k | 0 <= k < |w|
      ensures Total(u, u[k].gate) == 0.0 <==> Total(w, w[k].gate) == 0.0
    {
      SignedTotal(w, negate, w[k].gate);
    }
  }

  /** Add and Subtract leave the receiver's vector as it was just when other lists no new gate
      and its coefficients for each gate add up to 0; on a shared values array, with distinct
      gates in other, just when other lists no new gate and every coefficient is 0. */
  lemma RoundsKeepIff(v: Vec, w: Vec, shared: bool, negate: bool)
    requires shared ==> SharedValues(v, w) && Distinct(w)
    ensures AfterRounds(v, w, |w|, shared, negate) == v
       <==> forall k :: 0 <= k < |w| ==>
              IndexOf(v, w[k].gate) < |v| && if shared then w[k].coeff == 0.0 else Total(w, w[k].gate) == 0.0
  {
    hide AfterRounds, AddInto, Total, IndexOf, SignedVec;
    AddIntoEnds(v, w, negate);
    SignedKeepsIff(v, w, negate);
    if !shared {
      SeparateRounds(v, w, |w|, negate);
    } else {
      SharedSumIff(v, w, negate);
      forall k | 0 <= k < |w|
        ensures Total(w, w[k].gate) == w[k].coeff
      {
        TotalIsCoeff(w, w[k].gate);
        IndexOfIs(w, w[k].gate, k);
      }
      if !ReadsFirst(v, w, |w|) {
        SpoiledChanges(v, w, negate);
      }
    }
  }

  /** Where a round changes what a later one reads, it changes the receiver. */
  lemma SpoiledChanges(v: Vec, w: Vec, negate: bool)
    requires SharedValues(v, w) && Distinct(w) && !ReadsFirst(v, w, |w|)
    ensures AfterRounds(v, w, |w|, true, negate) != v
    ensures exists k :: 0 <= k < |w| && w[k].coeff != 0.0
  {
    hide AfterRounds, AddInto, Coeff, IndexOf;
    var k := FirstSpoiler(v, w, |w|);
    SharedRounds(v, w, k, negate);
    CoeffAfterRounds(v, w, k, negate);
  }

  /** Distinct gates stay distinct, whatever the rounds read. */
  lemma {:induction false} RoundsKeepDistinct(v: Vec, w: Vec, i: nat, shared: bool, negate: bool)
    requires i <= |w| && (shared ==> |w| <= |v|) && Distinct(v)
    ensures Distinct(AfterRounds(v, w, i, shared, negate))
  {
    if i > 0 {
      RoundsKeepDistinct(v, w, i - 1, shared, negate);
    }
  }

  lemma {:induction false} TotalOfMissing(w: Vec, g: string)
    ensures Total(w, g) == 0.0 || exists k :: 0 <= k < |w| && w[k].gate == g
  {
    if w != [] {
      var before := w[..|w| - 1];
      TotalOfMissing(before, g);
      assert w == before + [w[|w| - 1]];
    }
  }
}
