/** Laws that span several routines of directions and axes, as programs that call them. */
module AxisLaws {
  import opened RuntimeGraph
  import opened GraphLaws
  import opened SparseVector
  import opened Rounds
  import opened Accessors
  import opened AxisGraph
  import opened AxisView
  import opened DirectionOps
  import opened DirectionView
  import opened ControlAxis

  /** The point at a coordinate of the axis through two points is their affine
      combination, and neither point is touched, whatever they share. */
  method PointBetween(offset: StructInstance, point: StructInstance, coordinate: StructInstance,
                      ghost t: real, ghost g: Graph, ghost gp: Graph)
      returns (result: StructInstance, ghost h: Graph)
    requires Denotes(true, StructV(offset), g) && IsPointGraph(g)
    requires Denotes(true, StructV(point), gp) && IsPointGraph(gp)
    requires Distinct(PointVecOf(g)) && 0 < |PointVecOf(g)| <= |PointVecOf(gp)|
    requires IsVoltage(StructV(coordinate)) && VoltageValue(StructV(coordinate)) == t
    ensures Denotes(true, StructV(result), h) && fresh(Nodes(h)) && IsPointGraph(h)
    ensures PointVecOf(h) == Affine(PointVecOf(g), PointVecOf(gp), t)
  {
    hide Denotes, Nodes, Separated, Erase, CopyOf, IsPointGraph, PointVecOf;
    hide IsDirection, DirectionVec, GateReals, PointAt, Between;
    hide WithVolts, VoltagesAt, Sub, Reaches, HasStruct, StructField, Times, Distinct, SameGates;
    ghost var off, pt := PointVecOf(g), PointVecOf(gp);
    PointOnAxisThrough(off, pt, t);
    BetweenInRange(off, pt);
    var axis, h0, d, _ := NewFromPoints(offset, point, g, gp);
    result, h := ToPoint(axis, coordinate, t, h0, d);
  }

  lemma BetweenInRange(off: Vec, pt: Vec)
    requires |off| <= |pt|
    ensures ToPointInRange(off, Between(off, pt))
  {
  }

  lemma {:induction false} WithVoltsTwice(g: Graph, base: seq<Step>, xs: seq<real>, ys: seq<real>)
    requires VoltagesAt(g, base) && |xs| == |ys| == |Sub(g, base).kids|
    ensures VoltagesAt(WithVolts(g, base, xs), base) && |Sub(WithVolts(g, base, xs), base).kids| == |ys|
    ensures WithVolts(WithVolts(g, base, xs), base, ys) == WithVolts(g, base, ys)
    decreases base
  {
    hide *;
    if base == [] {
      TwiceAtRoot(g, xs, ys);
    } else {
      BelowVoltages(g, base, |xs|);
      WithVoltsTwice(g.kids[base[0]], base[1..], xs, ys);
      TwiceStep(g, base[0], base[1..], xs, ys);
      assert base == [base[0]] + base[1..];
    }
  }

  lemma TwiceAtRoot(g: Graph, xs: seq<real>, ys: seq<real>)
    requires VoltagesAt(g, []) && |xs| == |ys| == |Sub(g, []).kids|
    ensures VoltagesAt(WithVolts(g, [], xs), []) && |Sub(WithVolts(g, [], xs), []).kids| == |ys|
    ensures WithVolts(WithVolts(g, [], xs), [], ys) == WithVolts(g, [], ys)
  {
    SetVoltsTwice(g, xs, ys);
    UnrollEmpty(g, xs);
    UnrollEmpty(g, ys);
    UnrollEmpty(SetVolts(g, xs), ys);
  }

  lemma BelowVoltages(g: Graph, base: seq<Step>, n: nat)
    requires base != [] && VoltagesAt(g, base) && n == |Sub(g, base).kids|
    ensures g.Node? && base[0] in g.kids && VoltagesAt(g.kids[base[0]], base[1..]) && n == |Sub(g.kids[base[0]], base[1..]).kids|
  {
  }

  lemma TwiceStep(g: Graph, st: Step, q: seq<Step>, xs: seq<real>, ys: seq<real>)
    requires g.Node? && st in g.kids && VoltagesAt(g.kids[st], q) && |xs| == |ys| == |Sub(g.kids[st], q).kids|
    requires var k := WithVolts(g.kids[st], q, xs);
             VoltagesAt(k, q) && |Sub(k, q).kids| == |ys| && WithVolts(k, q, ys) == WithVolts(g.kids[st], q, ys)
    ensures VoltagesAt(g, [st] + q) && |Sub(g, [st] + q).kids| == |xs|
    ensures var h := WithVolts(g, [st] + q, xs);
            && VoltagesAt(h, [st] + q) && |Sub(h, [st] + q).kids| == |ys|
            && WithVolts(h, [st] + q, ys) == WithVolts(g, [st] + q, ys)
  {
    hide VoltagesAt, WithVolts, Sub;
    var kid := g.kids[st];
    WithVoltsStep(g, st, q, xs);
    WithVoltsStep(g, st, q, ys);
    WithVoltsStep(WithKid(g, st, WithVolts(kid, q, xs)), st, q, ys);
    assert g.kids[st := WithVolts(kid, q, xs)][st := WithVolts(kid, q, ys)] == g.kids[st := WithVolts(kid, q, ys)];
  }

  lemma SetVoltsTwice(a: Graph, xs: seq<real>, ys: seq<real>)
    requires IsVoltageArray(a) && |xs| == |ys| == |a.kids|
    ensures IsVoltageArray(SetVolts(a, xs)) && |SetVolts(a, xs).kids| == |ys|
    ensures SetVolts(SetVolts(a, xs), ys) == SetVolts(a, ys)
  {
    hide *;
    SetVoltsArray(a, xs);
    SetVoltsKids(a, xs);
    SetVoltsKids(a, ys);
    SetVoltsKids(SetVolts(a, xs), ys);
    var b, c := SetVolts(SetVolts(a, xs), ys), SetVolts(a, ys);
    forall st | st in a.kids
      ensures b.kids[st] == c.kids[st]
    {
      VoltageTwice(a.kids[st], xs[st.i], ys[st.i]);
    }
    assert b.kids == c.kids;
  }

  lemma SetVoltsKids(a: Graph, xs: seq<real>)
    requires IsVoltageArray(a) && |xs| == |a.kids|
    ensures var h := SetVolts(a, xs);
      && a.Node? && h.Node? && h.id == a.id && h.tag == a.tag && h.kids.Keys == a.kids.Keys
      && forall st :: st in a.kids ==>
           st.Index? && st.i < |xs| && a.kids[st].Node? && h.kids[st] == Voltage(a.kids[st], xs[st.i])
  {
    forall st | st in a.kids
      ensures st.Index? && st.i < |xs| && a.kids[st].Node?
    {
      assert IsVoltageGraph(a.kids[Index(st.i)]);
    }
  }

  /** Two axes of equal value with offsets replaced twice, or once by the same vector. */
  lemma ReplacedTwice(e: Graph, m: Graph, a: Graph, b: Graph, xs: seq<real>, ys: seq<real>)
    requires VoltagesAt(e, OFFSETS_PATH) && |Sub(e, OFFSETS_PATH).kids| == |xs| == |ys|
    requires m == WithVolts(e, OFFSETS_PATH, xs) && VoltagesAt(m, OFFSETS_PATH) && |Sub(m, OFFSETS_PATH).kids| == |ys|
    requires a == WithVolts(m, OFFSETS_PATH, ys) && b == WithVolts(e, OFFSETS_PATH, ys)
    ensures a == b
  {
    WithVoltsTwice(e, OFFSETS_PATH, xs, ys);
  }

  lemma ShiftedNonEmpty(off: Vec, d: Vec)
    requires off != []
    ensures ShiftBy(off, d) != [] && |ShiftBy(off, d)| == |off|
  {
    ShiftKeepsGates(off, d);
  }

  /** Shifting by d1 and then by d2 yields an axis of the same value, in every field, as
      shifting once by the direction that Add makes of them. */
  method ShiftTwiceAndOnce(self: StructInstance, d1: StructInstance, d2: StructInstance,
                           ghost g: Graph, ghost g1: Graph, ghost l1: Layout, ghost l2: Layout)
      returns (twice: StructInstance, once: StructInstance, ghost h2: Graph, ghost h1: Graph)
    requires Denotes(true, StructV(self), g) && IsAxisGraph(g) && OffsetVecOf(g) != []
    requires IsDirection(d1, l1) && Denotes(false, StructV(d1), g1) && IsDirection(d2, l2)
    requires l1.values == l2.values ==> ReadsFirst(ContentsOf(d1, l1), ContentsOf(d2, l2), |ContentsOf(d2, l2)|)
    requires l1.keys !in Nodes(g) && l1.values !in Nodes(g)
    modifies l1.keys, l1.values
    ensures Denotes(true, StructV(twice), h2) && Denotes(true, StructV(once), h1) && Erase(h2) == Erase(h1)
    ensures IsAxisGraph(h1)
    ensures OffsetVecOf(h1) == ShiftBy(OffsetVecOf(g), AddInto(old(ContentsOf(d1, l1)), old(ContentsOf(d2, l2))))
    ensures VoltagesAt(Erase(g), OFFSETS_PATH) && |Sub(Erase(g), OFFSETS_PATH).kids| == |OffsetVecOf(h1)|
    ensures Erase(h1) == WithVolts(Erase(g), OFFSETS_PATH, CoeffsOf(OffsetVecOf(h1)))
  {
    hide Denotes, Nodes, Separated, Erase, IsAxisGraph, OffsetVecOf, IsDirection, DirectionVec, GateReals, ShiftBy, AddInto;
    hide WithVolts, VoltagesAt, Sub, Reaches, Leads, CoeffsOf;
    ghost var v1, v2, off := ContentsOf(d1, l1), ContentsOf(d2, l2), OffsetVecOf(g);
    NodesAllocated(g);
    NodesAllocated(g1);
    var first, f := Shifted(self, d1, g, l1);
    ShiftedNonEmpty(off, v1);
    twice, h2 := Shifted(first, d2, f, l2);
    NodesAllocated(h2);
    var sum, r := AddDirections(d1, d2, g1, l1, l2);
    once, h1 := Shifted(self, sum, g, r);
    ShiftTwiceIsShiftBySum(off, v1, v2);
    ShiftedNonEmpty(off, AddInto(v1, v2));
    ReplacedTwice(Erase(g), Erase(f), Erase(h2), Erase(h1), CoeffsOf(OffsetVecOf(f)), CoeffsOf(OffsetVecOf(h1)));
  }

  /** The offset read off an axis again, after changes elsewhere. */
  lemma OffsetStays(self: StructInstance, g: Graph, go: Graph)
    requires HasStruct(self, "offset_") && Denotes(true, StructV(self), g)
    requires Denotes(true, StructV(StructField(self, "offset_")), go) && IsPointGraph(go)
    ensures IsAxisGraph(g) && OffsetVecOf(g) == PointVecOf(go)
  {
    hide IsPointGraph, PointVecOf, Nodes;
    StructKids(true, self, g);
    NamedAt(self.fields, "offset_");
    KidsOfDenote(true, StructV(self), g);
    assert KidsOf(true, StructV(self))[Field("offset_")] == StructV(StructField(self, "offset_"));
    UnfoldingIsUnique(true, StructV(StructField(self, "offset_")), g.kids[Field("offset_")], go);
    PointIsStruct(go);
  }

  lemma PointIsStruct(g: Graph)
    requires IsPointGraph(g)
    ensures g.Node? && g.tag.StructTag?
  {
  }

  /** The offset of an axis, and that its graph is part of the axis's. */
  lemma OffsetHere(self: StructInstance, g: Graph)
    requires Denotes(true, StructV(self), g) && IsAxisGraph(g)
    ensures HasStruct(self, "offset_") && StructAt(g, "offset_") && IsPointGraph(At(g, "offset_"))
    ensures Denotes(true, StructV(StructField(self, "offset_")), At(g, "offset_"))
    ensures OffsetVecOf(g) == PointVecOf(At(g, "offset_"))
  {
    FieldNode(true, self, g, "offset_");
  }

  /** The arrays that Add rewrites keep an acyclic graph acyclic. */
  lemma GatesBelow(keys: ArrayValue, values: ArrayValue, old0: seq<RuntimeValue>, more: seq<RuntimeValue>,
                   vs: set<RuntimeValue>, rank: map<RuntimeValue, nat>)
    requires forall x :: x in keys.elements ==> x in old0 || x in more
    requires ArrayV(keys) in vs ==> ArrayV(keys) in rank
    requires ArrayV(keys) in vs ==> forall x :: x in old0 && x.IsNode() ==> RanksBelow(x, ArrayV(keys), vs, rank)
    requires ArrayV(keys) in vs ==> forall x :: x in more && x.IsNode() ==> RanksBelow(x, ArrayV(keys), vs, rank)
    requires Reals(values.elements) && (ArrayV(values) in vs ==> ArrayV(values) in rank)
    ensures forall a :: a in {keys, values} && ArrayV(a) in vs ==>
              forall k :: 0 <= k < |a.elements| && a.elements[k].IsNode() ==> RanksBelow(a.elements[k], ArrayV(a), vs, rank)
  {
    hide RanksBelow;
  }

  /** Shifting by the sum, also when d1 has arrays of the axis: Add changes the axis then,
      but not its offset.  vs and rank say that the axis is acyclic and stays so with d2's
      gates in d1's keys. */
  method ShiftBySum(self: StructInstance, d1: StructInstance, d2: StructInstance,
                    ghost g: Graph, ghost g1: Graph, ghost l1: Layout, ghost l2: Layout,
                    ghost vs: set<RuntimeValue>, ghost rank: map<RuntimeValue, nat>)
      returns (once: StructInstance, ghost h: Graph)
    requires Denotes(true, StructV(self), g) && IsAxisGraph(g) && OffsetVecOf(g) != []
    requires IsDirection(d1, l1) && Denotes(false, StructV(d1), g1) && IsDirection(d2, l2)
    requires l1.values == l2.values ==> ReadsFirst(ContentsOf(d1, l1), ContentsOf(d2, l2), |ContentsOf(d2, l2)|)
    requires l1.keys !in Nodes(At(g, "offset_")) && l1.values !in Nodes(At(g, "offset_"))
    requires Acyclic(true, vs, rank) && StructV(self) in vs
    requires ArrayV(l1.keys) in vs && ArrayV(l1.keys) in rank ==>
               forall x :: x in l2.keys.elements && x.IsNode() ==> RanksBelow(x, ArrayV(l1.keys), vs, rank)
    modifies l1.keys, l1.values
    ensures Denotes(true, StructV(once), h) && IsAxisGraph(h) && fresh(Nodes(h))
    ensures OffsetVecOf(h) == ShiftBy(OffsetVecOf(g), AddInto(old(ContentsOf(d1, l1)), old(ContentsOf(d2, l2))))
  {
    hide *;
    ContentsAre(d1, l1);
    ContentsAre(d2, l2);
    NodesAllocated(g1);
    OffsetHere(self, g);
    ghost var go, p := At(g, "offset_"), StructField(self, "offset_");
    NodesAllocated(go);
    OpenAcyclic(true, vs, rank);
    IdsAllocated(vs);
    if ArrayV(l1.keys) in vs {
      ElementsBelow(true, l1.keys, vs, rank);
    }
    ghost var keys0, keys2 := l1.keys.elements, l2.keys.elements;
    var sum, r := AddDirections(d1, d2, g1, l1, l2);
    OpenDirection(sum, r);
    RealsHere(r);
    GatesBelow(l1.keys, l1.values, keys0, keys2, vs, rank);
    CloseAcyclic(true, vs, rank, {l1.keys, l1.values});
    AcyclicUnfolds(true, StructV(self), vs, rank);
    ghost var g' := Unfold(true, StructV(self), vs, rank);
    OffsetStays(self, g', go);
    once, h := Shifted(self, sum, g', r);
  }

  /** The law of the two shifts for the offsets alone.  d1 may be the axis's own direction, or a
      multiple of it: only the axis's offset point must not hold d1's arrays. */
  method ShiftOffsetsTwiceAndOnce(self: StructInstance, d1: StructInstance, d2: StructInstance,
                                  ghost g: Graph, ghost g1: Graph, ghost l1: Layout, ghost l2: Layout,
                                  ghost vs: set<RuntimeValue>, ghost rank: map<RuntimeValue, nat>)
      returns (twice: StructInstance, once: StructInstance, ghost h2: Graph, ghost h1: Graph)
    requires Denotes(true, StructV(self), g) && IsAxisGraph(g) && OffsetVecOf(g) != []
    requires IsDirection(d1, l1) && Denotes(false, StructV(d1), g1) && IsDirection(d2, l2)
    requires l1.values == l2.values ==> ReadsFirst(ContentsOf(d1, l1), ContentsOf(d2, l2), |ContentsOf(d2, l2)|)
    requires l1.keys !in Nodes(At(g, "offset_")) && l1.values !in Nodes(At(g, "offset_"))
    requires Acyclic(true, vs, rank) && StructV(self) in vs
    requires ArrayV(l1.keys) in vs && ArrayV(l1.keys) in rank ==>
               forall x :: x in l2.keys.elements && x.IsNode() ==> RanksBelow(x, ArrayV(l1.keys), vs, rank)
    modifies l1.keys, l1.values
    ensures Denotes(true, StructV(twice), h2) && IsAxisGraph(h2) && Denotes(true, StructV(once), h1) && IsAxisGraph(h1)
    ensures OffsetVecOf(h2) == OffsetVecOf(h1)
         == ShiftBy(OffsetVecOf(g), AddInto(old(ContentsOf(d1, l1)), old(ContentsOf(d2, l2))))
  {
    hide *;
    ghost var v1, v2, off := ContentsOf(d1, l1), ContentsOf(d2, l2), OffsetVecOf(g);
    ContentsAre(d1, l1);
    ContentsAre(d2, l2);
    NodesAllocated(g);
    NodesAllocated(g1);
    IdsAllocated(vs);
    var first, f := Shifted(self, d1, g, l1);
    ShiftedNonEmpty(off, v1);
    twice, h2 := Shifted(first, d2, f, l2);
    NodesAllocated(h2);
    ShiftTwiceIsShiftBySum(off, v1, v2);
    once, h1 := ShiftBySum(self, d1, d2, g, g1, l1, l2, vs, rank);
  }

  lemma RealsHere(r: Layout)
    requires GateReals(r)
    ensures Reals(r.values.elements)
  {
  }

  lemma ContentsAre(d: StructInstance, l: Layout)
    requires IsDirection(d, l)
    ensures GateReals(l) && ContentsOf(d, l) == DirectionVec(l)
  {
  }

  ghost function ContentsOf(d: StructInstance, l: Layout): Vec
    requires IsDirection(d, l)
    reads l.structs, l.keys, l.values
  {
    DirectionVec(l)
  }

  /** Zeroing the offsets of an axis built from two points: the axis is the one NewFromPoints
      built (built), with the zero vector for an offset and equal in everything else, and both
      points are left alone: the method may change nothing that existed before, whatever the
      points shared. */
  method ZeroedAxis(offset: StructInstance, point: StructInstance, ghost g: Graph, ghost gp: Graph)
      returns (axis: StructInstance, ghost built: Graph, ghost k: Graph)
    requires Denotes(true, StructV(offset), g) && IsPointGraph(g)
    requires Denotes(true, StructV(point), gp) && IsPointGraph(gp) && |PointVecOf(g)| <= |PointVecOf(gp)|
    ensures fresh(axis) && Denotes(true, StructV(axis), k) && IsWholeAxis(k) && IsWholeAxis(built)
    ensures OffsetVecOf(built) == PointVecOf(g) && DirVecOf(built) == Between(PointVecOf(g), PointVecOf(gp))
    ensures VoltagesAt(built, OFFSETS_PATH) && |Sub(built, OFFSETS_PATH).kids| == |PointVecOf(g)|
    ensures k == WithVolts(built, OFFSETS_PATH, Zeros(|PointVecOf(g)|))
    ensures OffsetVecOf(k) == WithCoeffs(PointVecOf(g), Zeros(|PointVecOf(g)|)) && DirVecOf(k) == DirVecOf(built)
  {
    hide *;
    ghost var h, d;
    axis, h, d, built := NewFromPoints(offset, point, g, gp);
    OpenWhole(built);
    ghost var n, dg := |PointVecOf(g)|, At(built, "direction_");
    CopyIsSeparated(h, g);
    FieldNode(true, axis, built, "direction_");
    NodesAllocated(dg);
    NodesAllocated(h);
    ghost var p, dir := StructField(axis, "offset_"), StructField(axis, "direction_");
    ghost var values := OffsetValues(axis, h);
    StartPointEdit(p, h);
    ghost var keys := Keys(p, POINT_MAP);
    ghost var e := PointEdit(StructV(p), h, VALUES_PATH, h, keys);
    ZeroOffsets(axis, values, true, e, CoeffsOf(e.v), keys);
    OpenEdited(e, Zeros(n), keys, values);
    EndPointEdit(h, h, Zeros(n));
    k := AxisGraphOf(axis, p, dir, WithVolts(h, VALUES_PATH, Zeros(n)), dg);
    ReplacedOffset(built, h, dg, Zeros(n), k);
  }

  lemma OpenWhole(g: Graph)
    requires IsWholeAxis(g)
    ensures IsAxisGraph(g) && StructAt(g, "offset_") && StructAt(g, "direction_") && IsDirectionGraph(At(g, "direction_"))
    ensures g.Node? && OffsetVecOf(g) == PointVecOf(At(g, "offset_")) && DirVecOf(g) == DirectionVecOf(At(g, "direction_"))
  {
  }

  /** An axis graph of two parts, with other offsets. */
  lemma ReplacedOffset(g: Graph, h: Graph, dg: Graph, xs: seq<real>, k: Graph)
    requires IsWholeAxis(g) && At(g, "offset_") == h && At(g, "direction_") == dg && IsWholeAxis(k)
    requires g.kids.Keys == {Field("offset_"), Field("direction_")} && |xs| == |OffsetVecOf(g)|
    requires VoltagesAt(h, VALUES_PATH) && |Sub(h, VALUES_PATH).kids| == |xs|
    requires k.Node? && k.id == g.id && k.tag == g.tag
    requires k.kids == map[Field("offset_") := WithVolts(h, VALUES_PATH, xs), Field("direction_") := dg]
    ensures VoltagesAt(g, OFFSETS_PATH) && |Sub(g, OFFSETS_PATH).kids| == |xs|
    ensures k == WithVolts(g, OFFSETS_PATH, xs)
  {
    hide *;
    OpenWhole(g);
    OffsetAt(g);
    OffsetsPath();
    WithVoltsStep(g, Field("offset_"), VALUES_PATH, xs);
    WithKidIs(g, h, dg, WithVolts(h, VALUES_PATH, xs), k);
  }

  lemma OffsetsPath()
    ensures [Field("offset_")] + VALUES_PATH == OFFSETS_PATH
  {
  }

  lemma OffsetAt(g: Graph)
    requires StructAt(g, "offset_") && StructAt(g, "direction_")
    ensures Field("offset_") in g.kids && g.kids[Field("offset_")] == At(g, "offset_")
    ensures Field("direction_") in g.kids && g.kids[Field("direction_")] == At(g, "direction_")
  {
  }

  lemma WithKidIs(g: Graph, h: Graph, dg: Graph, h': Graph, k: Graph)
    requires g.Node? && g.kids.Keys == {Field("offset_"), Field("direction_")} && g.kids[Field("direction_")] == dg
    requires k.Node? && k.id == g.id && k.tag == g.tag && k.kids == map[Field("offset_") := h', Field("direction_") := dg]
    ensures k == WithKid(g, Field("offset_"), h')
  {
    assert k.kids == g.kids[Field("offset_") := h'];
  }

  lemma CopyIsSeparated(h: Graph, g: Graph)
    requires CopyOf(h, g)
    ensures Separated(h)
  {
  }

  /** The array of an axis's offset voltages, all of them nodes of the offset's graph. */
  lemma OffsetValues(axis: StructInstance, h: Graph) returns (values: ArrayValue)
    requires HasStruct(axis, "offset_") && Denotes(true, StructV(StructField(axis, "offset_")), h)
    requires IsPointGraph(h) && Separated(h)
    ensures HasMap(StructField(axis, "offset_"), POINT_MAP) && values == Values(StructField(axis, "offset_"), POINT_MAP)
    ensures |values.elements| == |PointVecOf(h)| && Voltages(values.elements, ElementStructs(values.elements))
    ensures ElementStructs(values.elements) <= Nodes(h) && values in Nodes(h)
  {
    var p := StructField(axis, "offset_");
    PointVolts(p, h);
    StartPointEdit(p, h);
    ValuesNode(p, h);
    values := Values(p, POINT_MAP);
    TaggedNode(true, ArrayV(values), VoltagesOf(h));
    KeysApart(h);
    hide Denotes, Nodes, Separated, IsPointGraph, HasMap, Editable, Edited;
  }

  /** Normalized directions have a dot product in [-1, 1]. */
  method NormalizeAndDot(a: StructInstance, b: StructInstance, p: real, q: real, ghost l: Layout, ghost m: Layout)
      returns (dot: real)
    requires IsDirection(a, l) && IsDirection(b, m) && Distinct(DirectionVec(l))
    requires {l.keys, l.values} !! {m.keys, m.values}
    requires IsNorm(p, DirectionVec(l)) && IsNorm(q, DirectionVec(m))
    modifies l.values, m.values
    ensures dot == Dot(Normalized(old(ContentsOf(a, l)), p), Normalized(old(ContentsOf(b, m)), q)) && -1.0 <= dot <= 1.0
  {
    hide GateReals, DirectionVec, Leads, Times;
    ghost var v, w := DirectionVec(l), DirectionVec(m);
    NormalizedDotInUnitInterval(v, w, p, q);
    NormalizeDirection(a, p, l);
    NormalizeDirection(b, q, m);
    dot := DotOf(a, b, l, m);
  }
}
