/** Shifted and ToPoint one after the other. */
module AxisMotion {
  import opened RuntimeGraph
  import opened GraphLaws
  import opened SparseVector
  import opened Accessors
  import opened AxisGraph
  import opened AxisView
  import opened DirectionView
  import opened DirectionOps
  import opened ControlAxis
  import opened AxisLaws

  /** Other offsets leave the direction alone, and act on the offset as a point. */
  lemma OtherOffsets(e: Graph, xs: seq<real>)
    requires VoltagesAt(e, OFFSETS_PATH) && |Sub(e, OFFSETS_PATH).kids| == |xs| && e.Node? && Field("direction_") in e.kids
    ensures Field("offset_") in e.kids && VoltagesAt(e.kids[Field("offset_")], VALUES_PATH)
    ensures |Sub(e.kids[Field("offset_")], VALUES_PATH).kids| == |xs|
    ensures var w := WithVolts(e, OFFSETS_PATH, xs);
            && w.Node? && Field("direction_") in w.kids && w.kids[Field("direction_")] == e.kids[Field("direction_")]
            && Field("offset_") in w.kids
            && w.kids[Field("offset_")] == WithVolts(e.kids[Field("offset_")], VALUES_PATH, xs)
  {
    assert OFFSETS_PATH[1..] == VALUES_PATH;
  }

  lemma ErasedKids(g: Graph)
    requires g.Node?
    ensures Erase(g).Node? && Erase(g).tag == g.tag && Erase(g).kids.Keys == g.kids.Keys
    ensures forall st :: st in g.kids ==> Erase(g).kids[st] == Erase(g.kids[st])
  {
  }

  /** What Shifted's result is made of: the old direction, and a point for an offset. */
  lemma ShiftedParts(g: Graph, h: Graph, xs: seq<real>)
    requires IsWholeAxis(g) && IsAxisGraph(h)
    requires VoltagesAt(Erase(g), OFFSETS_PATH) && |Sub(Erase(g), OFFSETS_PATH).kids| == |xs|
    requires Erase(h) == WithVolts(Erase(g), OFFSETS_PATH, xs)
    ensures IsWholeAxis(h) && DirVecOf(h) == DirVecOf(g)
    ensures var e := Erase(At(g, "offset_"));
            && VoltagesAt(e, VALUES_PATH) && |Sub(e, VALUES_PATH).kids| == |xs|
            && Erase(At(h, "offset_")) == WithVolts(e, VALUES_PATH, xs)
  {
    hide Erase, IsAxisGraph, IsDirectionGraph, VoltagesAt, WithVolts, Sub, DirectionVecOf;
    AxisNode(g);
    AxisNode(h);
    ErasedKids(g);
    ErasedKids(h);
    OtherOffsets(Erase(g), xs);
    ErasedStruct(At(g, "direction_"), h.kids[Field("direction_")]);
    SameDirection(At(g, "direction_"), At(h, "direction_"));
  }

  lemma AxisNode(g: Graph)
    requires IsAxisGraph(g)
    ensures StructAt(g, "offset_")
  {
  }

  lemma ErasedStruct(g: Graph, h: Graph)
    requires Erase(g) == Erase(h) && g.Node?
    ensures h.Node? && h.tag == g.tag
  {
  }

  /** The direction of an axis in the heap. */
  lemma DirectionInHeap(axis: StructInstance, g: Graph)
    requires Denotes(true, StructV(axis), g) && IsWholeAxis(g)
    requires GatesIn(At(g, "direction_")).id != RealsIn(At(g, "direction_")).id
    ensures HasStruct(axis, "direction_") && HasMap(StructField(axis, "direction_"), DIRECTION_MAP)
    ensures var d := StructField(axis, "direction_");
            IsDirection(d, LayoutOf(d)) && DirectionVec(LayoutOf(d)) == DirVecOf(g)
  {
    FieldNode(true, axis, g, "direction_");
    hide Denotes, IsDirectionGraph;
    DirectionHere(StructField(axis, "direction_"), At(g, "direction_"));
  }

  lemma UnsharedDirection(axis: StructInstance, g: Graph)
    requires Denotes(true, StructV(axis), g) && IsWholeAxis(g) && Separated(g)
    ensures GatesIn(At(g, "direction_")).id != RealsIn(At(g, "direction_")).id
  {
    FieldNode(true, axis, g, "direction_");
    var d := StructField(axis, "direction_");
    DirectionArraysNode(d, At(g, "direction_"));
    TaggedNode(true, ArrayV(Keys(d, DIRECTION_MAP)), GatesIn(At(g, "direction_")));
    TaggedNode(true, ArrayV(Values(d, DIRECTION_MAP)), RealsIn(At(g, "direction_")));
    SeparatedKid(g, Field("direction_"));
    hide Denotes, Separated, Nodes;
    ArraysApart(At(g, "direction_"));
  }

  /** The point at t of an axis that was shifted first: the shifted point at t, with every
      other field as in the axis's offset. */
  method ShiftedToPoint(self: StructInstance, d: StructInstance, coordinate: StructInstance,
                        ghost t: real, ghost g: Graph, ghost l: Layout)
      returns (point: StructInstance, ghost h: Graph)
    requires Denotes(true, StructV(self), g) && IsWholeAxis(g) && OffsetVecOf(g) != []
    requires IsDirection(d, l) && ToPointInRange(OffsetVecOf(g), DirVecOf(g))
    requires IsVoltage(StructV(coordinate)) && VoltageValue(StructV(coordinate)) == t
    ensures Denotes(true, StructV(point), h) && fresh(Nodes(h)) && IsPointGraph(h)
    ensures PointVecOf(h) == ShiftBy(PointAt(OffsetVecOf(g), DirVecOf(g), t), DirectionVec(l))
    ensures var e := Erase(At(g, "offset_"));
            && VoltagesAt(e, VALUES_PATH) && |Sub(e, VALUES_PATH).kids| == |PointVecOf(h)|
            && Erase(h) == WithVolts(e, VALUES_PATH, CoeffsOf(PointVecOf(h)))
  {
    hide *;
    OpenWhole(g);
    ghost var off, dir := OffsetVecOf(g), DirVecOf(g);
    OpenDirection(d, l);
    PointOfShifted(off, DirectionVec(l), dir, t);
    OneTarget(coordinate);
    var axis, f := Shifted(self, d, g, l);
    ghost var xs := CoeffsOf(OffsetVecOf(f));
    ShiftedParts(g, f, xs);
    UnsharedDirection(axis, f);
    DirectionInHeap(axis, f);
    OffsetHere(axis, f);
    InRangeAfter(off, ShiftBy(off, DirectionVec(l)), dir);
    point, h := ToPoint(axis, coordinate, t, At(f, "offset_"), LayoutOf(StructField(axis, "direction_")));
    WithVoltsTwice(Erase(At(g, "offset_")), VALUES_PATH, xs, CoeffsOf(PointVecOf(h)));
  }

  lemma OneTarget(s: StructInstance)
    ensures Target(StructV(s)) == {s}
  {
  }

  lemma InRangeAfter(off: Vec, s: Vec, dir: Vec)
    requires ToPointInRange(off, dir) && |s| == |off| && off != []
    ensures ToPointInRange(s, dir) && s != []
  {
  }

  /** Moving along the axis: the point at t + u, and the point at t of the axis shifted by u
      times its direction, are the same point in every field. */
  method MovedAlongAxis(self: StructInstance, d: StructInstance, far: StructInstance, near: StructInstance,
                        ghost t: real, ghost u: real, ghost g: Graph, ghost l: Layout)
      returns (direct: StructInstance, moved: StructInstance, ghost h: Graph, ghost k: Graph)
    requires Denotes(true, StructV(self), g) && IsWholeAxis(g) && OffsetVecOf(g) != []
    requires GatesIn(At(g, "direction_")).id != RealsIn(At(g, "direction_")).id
    requires Distinct(OffsetVecOf(g)) && SameGates(OffsetVecOf(g), DirVecOf(g))
    requires IsDirection(d, l) && DirectionVec(l) == Scale(DirVecOf(g), u)
    requires IsVoltage(StructV(far)) && VoltageValue(StructV(far)) == t + u
    requires IsVoltage(StructV(near)) && VoltageValue(StructV(near)) == t
    ensures Denotes(true, StructV(direct), h) && Denotes(true, StructV(moved), k) && fresh(Nodes(h)) && fresh(Nodes(k))
    ensures IsPointGraph(h) && PointVecOf(h) == PointAt(OffsetVecOf(g), DirVecOf(g), t + u)
    ensures Erase(h) == Erase(k)
  {
    hide *;
    OpenWhole(g);
    OpenDirection(d, l);
    ghost var off, dir := OffsetVecOf(g), DirVecOf(g);
    AlignedInRange(off, dir);
    PointMovesAlongDirection(off, dir, t, u);
    NodesAllocated(g);
    OffsetHere(self, g);
    DirectionInHeap(self, g);
    OneTarget(near);
    ContentsAre(d, l);
    direct, h := ToPoint(self, far, t + u, At(g, "offset_"), LayoutOf(StructField(self, "direction_")));
    NodesAllocated(h);
    moved, k := ShiftedToPoint(self, d, near, t, g, l);
  }

  lemma AlignedInRange(off: Vec, dir: Vec)
    requires SameGates(off, dir)
    ensures ToPointInRange(off, dir)
  {
  }

  // ---------------------------------------------------------------------------
  // The axis's own direction
  // ---------------------------------------------------------------------------

  /** The map in a direction has arrays that the deep clone copies. */
  ghost predicate CopiesArrays(d: StructInstance)
    reads d, Accessors.Below(d, DIRECTION_MAP), Spine(d, DIRECTION_MAP)
  {
    && HasMap(d, DIRECTION_MAP)
    && CopiesHandle(true, StructField(StructField(d, DIRECTION_MAP), "keys_"))
    && CopiesHandle(true, StructField(StructField(d, DIRECTION_MAP), "values_"))
  }

  lemma CopiesNative(s: StructInstance, g: Graph)
    requires Denotes(true, StructV(s), g) && g.Node? && Native in g.kids
    ensures CopiesHandle(true, s)
  {
    hide Denotes, KidsDenote;
    StructKids(true, s, g);
  }

  lemma UnfoldsToCopies(d: StructInstance, g: Graph)
    requires Denotes(true, StructV(d), g) && HasArrays(g)
    ensures CopiesArrays(d)
  {
    DirectionArraysNode(d, g);
    FieldNode(true, d, g, DIRECTION_MAP);
    var m, gm := StructField(d, DIRECTION_MAP), At(g, DIRECTION_MAP);
    FieldNode(true, m, gm, "keys_");
    FieldNode(true, m, gm, "values_");
    CopiesNative(StructField(m, "keys_"), At(gm, "keys_"));
    CopiesNative(StructField(m, "values_"), At(gm, "values_"));
    hide *;
    CloseCopies(d);
  }

  lemma CloseCopies(d: StructInstance)
    requires HasMap(d, DIRECTION_MAP)
    requires CopiesHandle(true, StructField(StructField(d, DIRECTION_MAP), "keys_"))
    requires CopiesHandle(true, StructField(StructField(d, DIRECTION_MAP), "values_"))
    ensures CopiesArrays(d)
  {
  }

  /** A struct field unfolds to a struct. */
  lemma FieldUnfolds(s: StructInstance, g: Graph, f: string)
    requires Denotes(true, StructV(s), g) && HasStruct(s, f)
    ensures StructAt(g, f) && Denotes(true, StructV(StructField(s, f)), At(g, f))
  {
    SameStructField(true, s, g, s, g, f);
    StructKids(true, s, g);
    StructKids(true, StructField(s, f), g.kids[Field(f)]);
    hide Denotes, KidsDenote;
  }

  lemma IndexedArray(a: ArrayValue, k: Graph)
    requires Denotes(true, ArrayV(a), k)
    ensures IsArray(k) && |k.kids| == |a.elements|
  {
    CountIndices(|a.elements|);
    assert k.kids.Keys == (set i: nat | i < |a.elements| :: Index(i));
    assert |k.kids| == |k.kids.Keys|;
  }

  /** A copied array unfolds to an array. */
  lemma ArrayUnfolds(s: StructInstance, g: Graph, f: string)
    requires Denotes(true, StructV(s), g) && HasArray(s, f) && CopiesHandle(true, StructField(s, f))
    ensures ArrayAt(g, f) && Denotes(true, ArrayV(ArrayField(s, f)), ArrayOf(g, f))
  {
    hide Denotes, KidsDenote, IsArray;
    FieldUnfolds(s, g, f);
    var o, h := StructField(s, f), At(g, f);
    StructKids(true, o, h);
    KidAt(true, Named(o.fields) + NativeKid(true, o), h.kids, Nodes(h), Native);
    IndexedArray(ArrayField(s, f), h.kids[Native]);
  }

  lemma ArraysUnfold(d: StructInstance, g: Graph)
    requires Denotes(true, StructV(d), g) && CopiesArrays(d)
    ensures HasArrays(g)
    ensures Denotes(true, ArrayV(Keys(d, DIRECTION_MAP)), GatesIn(g))
    ensures Denotes(true, ArrayV(Values(d, DIRECTION_MAP)), RealsIn(g))
  {
    hide Denotes, ArrayAt, CopiesHandle;
    FieldUnfolds(d, g, DIRECTION_MAP);
    ArrayUnfolds(StructField(d, DIRECTION_MAP), At(g, DIRECTION_MAP), "keys_");
    ArrayUnfolds(StructField(d, DIRECTION_MAP), At(g, DIRECTION_MAP), "values_");
  }

  lemma GateUnfolds(v: RuntimeValue, g: Graph)
    requires IsGate(v) && Denotes(true, v, g)
    ensures IsGateGraph(g) && g.kids[Field("name_")].v.t == GateName(v)
  {
    hide Denotes, KidsDenote, NativeKid, Named;
    StructKids(true, v.s, g);
    NamedAt(v.s.fields, "name_");
    KidAt(true, Named(v.s.fields) + NativeKid(true, v.s), g.kids, Nodes(g), Field("name_"));
    LeafUnfolds(v.s.fields["name_"], g.kids[Field("name_")]);
  }

  lemma LeafUnfolds(v: RuntimeValue, g: Graph)
    requires Denotes(true, v, g) && !v.IsNode()
    ensures g == Leaf(v)
  {
  }

  /** The elements of a direction's arrays unfold to its gates and its coefficients. */
  lemma EntriesUnfold(l: Layout, v: Vec, k: Graph, r: Graph)
    requires GateReals(l) && v == DirectionVec(l) && IsArray(k) && IsArray(r)
    requires Denotes(true, ArrayV(l.keys), k) && Denotes(true, ArrayV(l.values), r)
    ensures |k.kids| == |r.kids| == |v|
    ensures forall i: nat :: i < |v| ==> IsGateGraph(k.kids[Index(i)]) && k.kids[Index(i)].kids[Field("name_")].v.t == v[i].gate
    ensures forall i: nat :: i < |v| ==> r.kids[Index(i)] == Leaf(RealV(v[i].coeff))
  {
    hide Denotes, Nodes, GateReals, DirectionVec, ListsGates, ListsReals;
    ElementNodes(l.keys, k);
    ElementNodes(l.values, r);
    ListedHere(l);
    ListedLengths(v, l);
    forall i: nat | i < |v|
      ensures IsGateGraph(k.kids[Index(i)]) && k.kids[Index(i)].kids[Field("name_")].v.t == v[i].gate
      ensures r.kids[Index(i)] == Leaf(RealV(v[i].coeff))
    {
      ListedAt(v, i, l.keys.elements, l.values.elements, l.structs);
      GateUnfolds(l.keys.elements[i], k.kids[Index(i)]);
      LeafUnfolds(l.values.elements[i], r.kids[Index(i)]);
    }
  }

  /** A direction in the heap unfolds to a direction of the same vector. */
  lemma DirectionUnfolds(d: StructInstance, g: Graph, l: Layout)
    requires Denotes(true, StructV(d), g) && CopiesArrays(d) && IsDirection(d, l)
    ensures IsDirectionGraph(g) && DirectionVecOf(g) == DirectionVec(l)
  {
    hide *;
    ArraysUnfold(d, g);
    OpenDirection(d, l);
    LeadsTo(d, l);
    EntriesUnfold(l, DirectionVec(l), GatesIn(g), RealsIn(g));
    DirectionGraphIs(g, DirectionVec(l));
  }

  lemma LeadsTo(d: StructInstance, l: Layout)
    requires IsDirection(d, l)
    ensures HasMap(d, DIRECTION_MAP) && Keys(d, DIRECTION_MAP) == l.keys && Values(d, DIRECTION_MAP) == l.values
  {
  }

  lemma ListedLengths(v: Vec, l: Layout)
    requires ListsGates(v, l.keys.elements, l.structs) && ListsReals(v, l.values.elements)
    ensures |v| == |l.keys.elements| == |l.values.elements|
  {
  }

  /** What is acyclic for the deep clone is acyclic for the sharing one. */
  lemma ShallowAcyclic(vs: set<RuntimeValue>, rank: map<RuntimeValue, nat>)
    requires Acyclic(true, vs, rank)
    ensures Acyclic(false, vs, rank)
  {
    forall v | v in vs
      ensures Ranked(false, v, vs, rank)
    {
      assert Ranked(true, v, vs, rank);
      assert forall st :: st in KidsOf(false, v) ==> st in KidsOf(true, v) && KidsOf(true, v)[st] == KidsOf(false, v)[st];
    }
  }

  /** A struct in a field of a ranked struct is one of the ranked nodes. */
  lemma FieldRanked(s: StructInstance, f: string, vs: set<RuntimeValue>, rank: map<RuntimeValue, nat>)
    requires Acyclic(true, vs, rank) && StructV(s) in vs && HasStruct(s, f)
    ensures StructV(StructField(s, f)) in vs
  {
    NamedAt(s.fields, f);
    assert Ranked(true, StructV(s), vs, rank);
    assert KidsOf(true, StructV(s))[Field(f)] == StructV(StructField(s, f));
  }

  lemma OwnDirection(axis: StructInstance, g: Graph, l: Layout)
    requires Denotes(true, StructV(axis), g) && IsWholeAxis(g)
    requires HasStruct(axis, "direction_") && IsDirection(StructField(axis, "direction_"), l)
    ensures CopiesArrays(StructField(axis, "direction_")) && DirVecOf(g) == DirectionVec(l)
  {
    hide *;
    OpenWhole(g);
    FieldNode(true, axis, g, "direction_");
    OpenDirectionGraph(At(g, "direction_"));
    UnfoldsToCopies(StructField(axis, "direction_"), At(g, "direction_"));
    DirectionUnfolds(StructField(axis, "direction_"), At(g, "direction_"), l);
  }

  lemma OpenDirectionGraph(g: Graph)
    requires IsDirectionGraph(g)
    ensures HasArrays(g)
  {
  }

  /** The axis after its direction's values have changed in place. */
  lemma WholeAgain(axis: StructInstance, g: Graph, go: Graph, l: Layout)
    requires Denotes(true, StructV(axis), g) && HasStruct(axis, "offset_") && HasStruct(axis, "direction_")
    requires Denotes(true, StructV(StructField(axis, "offset_")), go) && IsPointGraph(go)
    requires CopiesArrays(StructField(axis, "direction_")) && IsDirection(StructField(axis, "direction_"), l)
    ensures IsWholeAxis(g) && OffsetVecOf(g) == PointVecOf(go) && DirVecOf(g) == DirectionVec(l)
  {
    hide *;
    OffsetStays(axis, g, go);
    FieldUnfolds(axis, g, "direction_");
    DirectionUnfolds(StructField(axis, "direction_"), At(g, "direction_"), l);
    CloseWhole(g);
  }

  lemma CloseWhole(g: Graph)
    requires IsAxisGraph(g) && StructAt(g, "direction_") && IsDirectionGraph(At(g, "direction_"))
    ensures IsWholeAxis(g) && DirVecOf(g) == DirectionVecOf(At(g, "direction_"))
  {
  }

  /** Scale called on the axis's own direction, and the axis then shifted by what it returns.
      Scale rewrites the axis's direction, so that the point at t is
      offset + t * (u * direction) + u * direction: on aligned axes that is the old axis's
      point at t * u + u, and not at t + u. */
  method MovedByOwnDirection(self: StructInstance, factor: real, coordinate: StructInstance,
                             ghost t: real, ghost g: Graph, ghost l: Layout,
                             ghost vs: set<RuntimeValue>, ghost rank: map<RuntimeValue, nat>)
      returns (point: StructInstance, ghost h: Graph)
    requires Denotes(true, StructV(self), g) && IsWholeAxis(g) && OffsetVecOf(g) != []
    requires HasStruct(self, "direction_") && IsDirection(StructField(self, "direction_"), l)
    requires l.values !in Nodes(At(g, "offset_")) && ToPointInRange(OffsetVecOf(g), DirVecOf(g))
    requires Acyclic(true, vs, rank) && StructV(self) in vs
    requires IsVoltage(StructV(coordinate)) && VoltageValue(StructV(coordinate)) == t
    modifies l.values
    ensures Denotes(true, StructV(point), h) && fresh(Nodes(h)) && IsPointGraph(h)
    ensures var off, scaled := OffsetVecOf(g), Scale(DirVecOf(g), factor);
            ToPointInRange(off, scaled) && PointVecOf(h) == ShiftBy(PointAt(off, scaled, t), scaled)
    ensures Distinct(OffsetVecOf(g)) && SameGates(OffsetVecOf(g), DirVecOf(g)) ==>
              PointVecOf(h) == PointAt(OffsetVecOf(g), DirVecOf(g), Times(t, factor) + factor)
  {
    hide *;
    OpenWhole(g);
    OwnDirection(self, g, l);
    OffsetHere(self, g);
    ghost var go, off, dir := At(g, "offset_"), OffsetVecOf(g), DirVecOf(g);
    var d := StructField(self, "direction_");
    NodesAllocated(go);
    SpineAllocated(d);
    FieldRanked(self, "direction_", vs, rank);
    ShallowAcyclic(vs, rank);
    AcyclicUnfolds(false, StructV(d), vs, rank);
    ghost var gd := Unfold(false, StructV(d), vs, rank);
    OpenAcyclic(true, vs, rank);
    IdsAllocated(vs);
    OneTarget(coordinate);
    var scaled, r := ScaleDirection(d, factor, gd, l);
    OpenDirection(d, l);
    OpenDirection(scaled, r);
    RealsHere(l);
    RealsBelow(l.values, vs, rank);
    CloseAcyclic(true, vs, rank, {l.values});
    AcyclicUnfolds(true, StructV(self), vs, rank);
    ghost var g' := Unfold(true, StructV(self), vs, rank);
    WholeAgain(self, g', go, l);
    ScaledInRange(off, dir, factor);
    if Distinct(off) && SameGates(off, dir) {
      ScaledPointMoves(off, dir, t, factor);
    }
    point, h := ShiftedToPoint(self, scaled, coordinate, t, g', r);
  }

  lemma RealsBelow(values: ArrayValue, vs: set<RuntimeValue>, rank: map<RuntimeValue, nat>)
    requires Reals(values.elements) && (ArrayV(values) in vs ==> ArrayV(values) in rank)
    ensures forall a :: a in {values} && ArrayV(a) in vs ==>
              forall k :: 0 <= k < |a.elements| && a.elements[k].IsNode() ==> RanksBelow(a.elements[k], ArrayV(a), vs, rank)
  {
  }

  lemma ScaledInRange(off: Vec, dir: Vec, factor: real)
    requires ToPointInRange(off, dir)
    ensures ToPointInRange(off, Scale(dir, factor))
  {
  }
}
