/** Project and Orthogonalize, which are written in Falcon over the native routines: what
    they compute, and what the shared arrays do to their arguments. */
module Projection {
  import opened RuntimeGraph
  import opened GraphLaws
  import opened SparseVector
  import opened Rounds
  import opened Accessors
  import opened DirectionOps

  /** The part of v that lies along w, for a w other than zero. */
  ghost function ShareOf(v: Vec, w: Vec): real
    requires Dot(w, w) != 0.0
  {
    Dot(v, w) / Dot(w, w)
  }

  /** Project scales other in place and returns it on other's own arrays; without a
      direction to project on it returns nothing. */
  method Project(self: StructInstance, other: StructInstance, ghost g: Graph, ghost l: Layout, ghost m: Layout)
      returns (projected: StructInstance?, ghost r: Layout)
    requires Denotes(false, StructV(other), g) && IsDirection(self, l) && IsDirection(other, m)
    modifies m.values
    ensures projected == null <==> Dot(old(DirectionVec(m)), old(DirectionVec(m))) == 0.0
    ensures projected == null ==> m.values.elements == old(m.values.elements)
    ensures projected != null ==>
              r.keys == m.keys && r.values == m.values && fresh(r.structs - m.structs) && fresh(projected)
    ensures projected != null ==>
              var v, w := old(DirectionVec(l)), old(DirectionVec(m));
              && IsDirection(projected, r) && IsDirection(other, m)
              && DirectionVec(r) == DirectionVec(m) == Scale(w, ShareOf(v, w))
  {
    hide *;
    OpenDirection(self, l);
    OpenDirection(other, m);
    NodesAllocated(g);
    projected, r := null, m;
    var denom := DotOf(other, other, m, m);
    if denom != 0.0 {
      var dot := DotOf(self, other, l, m);
      ShareIs(DirectionVec(l), DirectionVec(m));
      projected, r := ScaleDirection(other, dot / denom, g, m);
      InSpine(projected, DIRECTION_MAP);
    }
  }

  lemma ShareIs(v: Vec, w: Vec)
    ensures Dot(w, w) != 0.0 ==> ShareOf(v, w) == Dot(v, w) / Dot(w, w)
  {
  }

  lemma InSpine(o: StructInstance, field: string)
    ensures o in Spine(o, field)
  {
  }

  /** The vector of the receiver once Project has scaled other: its own, unless the two
      directions have one array of values. */
  ghost function Receiver(v: Vec, w: Vec, shared: bool): Vec
    requires Dot(w, w) != 0.0
  {
    if shared then Scale(v, ShareOf(v, w)) else v
  }

  lemma KeysAndValuesApart(l: Layout, m: Layout)
    requires GateReals(l) && GateReals(m) && Dot(DirectionVec(m), DirectionVec(m)) != 0.0
    ensures l.keys != m.values && m.keys != l.values && l.keys != l.values
  {
    assert DirectionVec(m) != [];
    assert IsGate(m.keys.elements[0]) && m.values.elements[0].RealV?;
  }

  /** What is subtracted, and that the remainder is orthogonal to it. */
  lemma RoundsOfProjection(v: Vec, w: Vec, shared: bool)
    requires Dot(w, w) != 0.0 && (shared ==> SharedValues(v, w))
    ensures var s, u := Scale(w, ShareOf(v, w)), Receiver(v, w, shared);
            && (shared ==> |u| == |s|)
            && (Distinct(w) && (shared ==> v == w) ==>
                  var rest := AfterRounds(u, s, |s|, shared, true); Dot(rest, w) == 0.0 && Dot(rest, s) == 0.0)
  {
    var s, u := Scale(w, ShareOf(v, w)), Receiver(v, w, shared);
    if Distinct(w) && (shared ==> v == w) {
      DotSelfIsNormSquared(w);
      ResidualIsOrthogonal(v, w);
      if shared {
        WholeShare(w);
        OwnReadsFirst(w);
      }
      hide AfterRounds, AddInto, Dot, Scale, Times, NormSquared;
      PlainSum(u, s, shared, true);
      DotScaleRight(AfterRounds(u, s, |s|, shared, true), w, ShareOf(v, w));
      TimesZero(ShareOf(v, w));
    }
  }

  /** A direction lies along itself. */
  lemma WholeShare(w: Vec)
    requires Dot(w, w) != 0.0
    ensures ShareOf(w, w) == 1.0 && Scale(w, 1.0) == w
  {
    hide Dot;
  }

  lemma ReceiverAfter(self: StructInstance, l: Layout, m: Layout, v: Vec, w: Vec)
    requires Leads(self, DIRECTION_MAP, l) && ListsGates(v, l.keys.elements, l.structs)
    requires GateReals(m) && l.values == m.values && SharedValues(v, w)
    requires l.keys != l.values && Dot(w, w) != 0.0 && DirectionVec(m) == Scale(w, ShareOf(v, w))
    ensures IsDirection(self, l) && DirectionVec(l) == Receiver(v, w, true)
  {
    hide Dot, Times, Leads;
  }

  lemma ReceiverApart(v: Vec, w: Vec)
    requires Dot(w, w) != 0.0
    ensures Receiver(v, w, false) == v
  {
  }

  lemma NoNodes(m: Layout)
    requires GateReals(m)
    ensures forall k :: 0 <= k < |m.values.elements| ==> !m.values.elements[k].IsNode()
  {
  }

  /** this.dir_ = result.dir_, for a result whose structs are not the receiver. */
  method AssignDirection(self: StructInstance, result: StructInstance, ghost r: Layout,
                         ghost other: StructInstance, ghost m: Layout)
    requires IsDirection(result, r) && self in r.structs && self !in Spine(result, DIRECTION_MAP)
    modifies self
    ensures IsDirection(self, r) && DirectionVec(r) == old(DirectionVec(r))
    ensures other != self && old(IsDirection(other, m)) ==> IsDirection(other, m) && DirectionVec(m) == old(DirectionVec(m))
  {
    hide VecOf, Names, Coefficients, Zip, Reals;
    ghost var dm := if HasStruct(other, DIRECTION_MAP) then StructField(other, DIRECTION_MAP) else other;
    ghost var rm := StructField(result, DIRECTION_MAP);
    self.fields := self.fields[DIRECTION_MAP := result.fields[DIRECTION_MAP]];
    assert HasStruct(self, DIRECTION_MAP) && StructField(self, DIRECTION_MAP) == rm;
    assert HasArray(rm, "keys_") && HasArray(rm, "values_");
    if other != self && old(IsDirection(other, m)) {
      assert HasStruct(other, DIRECTION_MAP) && StructField(other, DIRECTION_MAP) == dm;
      assert StructField(dm, "keys_") == old(StructField(dm, "keys_"));
      assert StructField(dm, "values_") == old(StructField(dm, "values_"));
    }
  }

  /** Orthogonalize: subtract the projection, in the receiver's own arrays.  vs and rank say
      that the receiver's structs form an acyclic graph. */
  method Orthogonalize(self: StructInstance, other: StructInstance, ghost l: Layout, ghost m: Layout,
                       ghost g: Graph, ghost vs: set<RuntimeValue>, ghost rank: map<RuntimeValue, nat>)
      returns (ghost r: Layout)
    requires Denotes(false, StructV(other), g) && IsDirection(self, l) && IsDirection(other, m)
    requires Acyclic(false, vs, rank) && StructV(self) in vs
    requires Dot(DirectionVec(m), DirectionVec(m)) != 0.0
    modifies self, l.keys, l.values, m.values
    ensures IsDirection(self, r) && r.keys == l.keys && r.values == l.values
    ensures var v, w := old(DirectionVec(l)), old(DirectionVec(m));
            var s, u := Scale(w, ShareOf(v, w)), Receiver(v, w, l.values == m.values);
            && (l.values == m.values ==> |u| == |s|)
            && DirectionVec(r) == AfterRounds(u, s, |s|, l.values == m.values, true)
            && (Distinct(w) && (l.values == m.values ==> v == w) ==>
                  Dot(DirectionVec(r), w) == 0.0 && Dot(DirectionVec(r), s) == 0.0)
            && (l.keys != m.keys && l.values != m.values ==> IsDirection(other, m) && DirectionVec(m) == s)
  {
    hide *;
    OpenDirection(self, l);
    OpenDirection(other, m);
    KeysAndValuesApart(l, m);
    ghost var v, w := DirectionVec(l), DirectionVec(m);
    ghost var shared := l.values == m.values;
    SharedArrays(l, m);
    RoundsOfProjection(v, w, shared);
    ListedHere(l);
    OpenAcyclic(false, vs, rank);
    IdsAllocated(vs);
    var projection, p := Project(self, other, g, l, m);
    OpenDirection(other, m);
    NoNodes(m);
    CloseAcyclic(false, vs, rank, {m.values});
    if shared {
      ReceiverAfter(self, l, m, v, w);
    } else {
      ReceiverApart(v, w);
    }
    AcyclicUnfolds(false, StructV(self), vs, rank);
    ghost var gs := Unfold(false, StructV(self), vs, rank);
    var result;
    result, r := SubtractDirections(self, projection, gs, l, p);
    AssignDirection(self, result, r, other, m);
  }
}
