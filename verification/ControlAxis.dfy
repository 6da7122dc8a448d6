/** Control axes: an offset point and a direction.  Shifted and ToPoint clone, then
    update the clone's voltages in place. */
module ControlAxis {
  import opened RuntimeGraph
  import opened SparseVector
  import opened Accessors
  import opened AxisGraph
  import opened AxisView
  import opened DirectionOps
  import opened DirectionView

  lemma {:induction false} NodeHolds(v: RuntimeValue, g: Graph, p: seq<Step>, n: StructInstance, f: string)
    requires Denotes(true, v, g) && Reaches(g, p) && Sub(g, p).id == n && Sub(g, p).tag.StructTag?
    requires Field(f) in Sub(g, p).kids && Sub(g, p).kids[Field(f)].Leaf?
    ensures f in n.fields && n.fields[f] == Sub(g, p).kids[Field(f)].v
    decreases p
  {
    if p == [] {
      LeafField(true, v, g, f);
    } else {
      KidsOfDenote(true, v, g);
      NodeHolds(KidsOf(true, v)[p[0]], g.kids[p[0]], p[1..], n, f);
    }
  }

  /** An unshared graph g of root, whose array of voltages at path base is being edited;
      k is the graph of the gate structs and v the vector the two arrays stood for. */
  datatype Edit = Edit(root: RuntimeValue, g: Graph, base: seq<Step>, k: Graph, gates: set<StructInstance>, v: Vec)

  ghost predicate Editable(e: Edit) {
    && Separated(e.g) && VoltagesAt(e.g, e.base) && |Sub(e.g, e.base).kids| == |e.v|
    && Nodes(e.k) !! Nodes(Sub(e.g, e.base))
  }

  /** The heap while the voltages are xs and all else is as it was. */
  ghost predicate Edited(e: Edit, xs: seq<real>, keys: ArrayValue, values: ArrayValue)
    requires Editable(e) && |xs| == |e.v|
    reads Nodes(WithVolts(e.g, e.base, xs)), keys, values, e.gates
  {
    && Denotes(true, e.root, WithVolts(e.g, e.base, xs))
    && HoldsGates(keys, e.gates, e.k, e.v) && HoldsNodes(values, Sub(e.g, e.base))
  }

  ghost function WithCoeffs(v: Vec, xs: seq<real>): Vec
    requires |v| == |xs|
  {
    seq(|v|, i requires 0 <= i < |v| && |v| == |xs| => Entry(v[i].gate, xs[i]))
  }

  /** Where voltage j sits in the graph under edit. */
  lemma VoltagePlace(e: Edit, xs: seq<real>, j: nat)
    requires Editable(e) && j < |xs| == |e.v|
    ensures var h, p := WithVolts(e.g, e.base, xs), e.base + [Index(j)];
            && Separated(h) && Nodes(h) == Nodes(e.g) && Reaches(h, p) && Sub(h, p).tag.StructTag?
            && Index(j) in Sub(e.g, e.base).kids && Sub(e.g, e.base).kids[Index(j)].Node?
            && Sub(h, p).id == Sub(e.g, e.base).kids[Index(j)].id
            && Field("value_") in Sub(h, p).kids && Sub(h, p).kids[Field("value_")] == Leaf(RealV(xs[j]))
  {
    WithVoltsNodes(e.g, e.base, xs);
    WithVoltsAt(e.g, e.base, xs);
    hide Separated, Nodes, WithVolts;
    SubAppend(WithVolts(e.g, e.base, xs), e.base, Index(j));
  }

  method VoltageAt(values: ArrayValue, j: nat, ghost e: Edit, ghost xs: seq<real>, ghost keys: ArrayValue)
      returns (voltage: StructInstance, value: real)
    requires Editable(e) && j < |xs| == |e.v| && Edited(e, xs, keys, values)
    ensures Index(j) in Sub(e.g, e.base).kids && Sub(e.g, e.base).kids[Index(j)].Node?
    ensures voltage == Sub(e.g, e.base).kids[Index(j)].id && value == xs[j]
  {
    VoltagePlace(e, xs, j);
    voltage := values.elements[j].s;
    hide Separated, Nodes, WithVolts, Denotes, HoldsGates;
    NodeHolds(e.root, WithVolts(e.g, e.base, xs), e.base + [Index(j)], voltage, "value_");
    value := voltage.fields["value_"].r;
  }

  method SetVoltageValue(voltage: StructInstance, value: real, ghost tracked: bool, ghost j: nat, ghost e: Edit,
                         ghost xs: seq<real>, ghost keys: ArrayValue, ghost values: ArrayValue)
    requires tracked ==> Editable(e) && j < |xs| == |e.v| && Edited(e, xs, keys, values)
    requires tracked ==> Index(j) in Sub(e.g, e.base).kids && Sub(e.g, e.base).kids[Index(j)].Node?
    requires tracked ==> voltage == Sub(e.g, e.base).kids[Index(j)].id
    modifies voltage
    ensures voltage.fields == old(voltage.fields)["value_" := RealV(value)] && voltage.nativeHandle == old(voltage.nativeHandle)
    ensures tracked ==> Edited(e, xs[j := value], keys, values)
  {
    hide *;
    ghost var h, p := e.g, [];
    if tracked {
      h, p := PrepareSet(e, xs, j, value, voltage, keys, values);
    }
    SetField(voltage, "value_", RealV(value), tracked, true, e.root, h, p);
    if tracked {
      CloseEdited(e, xs[j := value], keys, values);
    }
  }

  /** All that SetField asks for. */
  lemma PrepareSet(e: Edit, xs: seq<real>, j: nat, value: real, voltage: StructInstance, keys: ArrayValue, values: ArrayValue)
      returns (h: Graph, p: seq<Step>)
    requires Editable(e) && j < |xs| == |e.v| && Edited(e, xs, keys, values)
    requires Index(j) in Sub(e.g, e.base).kids && Sub(e.g, e.base).kids[Index(j)].Node?
    requires voltage == Sub(e.g, e.base).kids[Index(j)].id
    ensures Separated(e.g) && VoltagesAt(e.g, e.base) && |Sub(e.g, e.base).kids| == |e.v|
    ensures Writable(true, e.root, h, p, voltage, "value_") && Reaches(h, p) && !RealV(value).IsNode()
    ensures Put(h, p, "value_", Leaf(RealV(value))) == WithVolts(e.g, e.base, xs[j := value])
    ensures HoldsGates(keys, e.gates, e.k, e.v) && HoldsNodes(values, Sub(e.g, e.base)) && voltage !in e.gates
  {
    assert !RealV(value).IsNode();
    hide *;
    OpenEdited(e, xs, keys, values);
    h, p := WithVolts(e.g, e.base, xs), e.base + [Index(j)];
    SetPlace(e, xs, j, value);
    VoltageApart(e, j, voltage, keys);
    IsWritable(e.root, h, p, voltage);
  }

  lemma IsWritable(v: RuntimeValue, h: Graph, p: seq<Step>, n: StructInstance)
    requires Denotes(true, v, h) && Separated(h) && Reaches(h, p) && Sub(h, p).id == n && Field("value_") in Sub(h, p).kids
    ensures Writable(true, v, h, p, n, "value_")
  {
  }

  lemma SetPlace(e: Edit, xs: seq<real>, j: nat, value: real)
    requires Editable(e) && j < |xs| == |e.v|
    requires Index(j) in Sub(e.g, e.base).kids && Sub(e.g, e.base).kids[Index(j)].Node?
    ensures var h, p := WithVolts(e.g, e.base, xs), e.base + [Index(j)];
            && Separated(h) && Reaches(h, p) && Sub(h, p).id == Sub(e.g, e.base).kids[Index(j)].id
            && Field("value_") in Sub(h, p).kids
            && Put(h, p, "value_", Leaf(RealV(value))) == WithVolts(e.g, e.base, xs[j := value])
  {
    VoltagePlace(e, xs, j);
    hide Separated, Nodes, WithVolts, Sub, Put, Reaches;
    PutVoltage(e.g, e.base, xs, j, value);
  }

  lemma OpenEdited(e: Edit, xs: seq<real>, keys: ArrayValue, values: ArrayValue)
    requires Editable(e) && |xs| == |e.v| && Edited(e, xs, keys, values)
    ensures Separated(e.g) && VoltagesAt(e.g, e.base) && |Sub(e.g, e.base).kids| == |e.v|
    ensures Denotes(true, e.root, WithVolts(e.g, e.base, xs))
    ensures HoldsGates(keys, e.gates, e.k, e.v) && HoldsNodes(values, Sub(e.g, e.base))
  {
  }

  lemma CloseEdited(e: Edit, xs: seq<real>, keys: ArrayValue, values: ArrayValue)
    requires Editable(e) && |xs| == |e.v|
    requires Denotes(true, e.root, WithVolts(e.g, e.base, xs))
    requires HoldsGates(keys, e.gates, e.k, e.v) && HoldsNodes(values, Sub(e.g, e.base))
    ensures Edited(e, xs, keys, values)
  {
  }

  lemma VoltageApart(e: Edit, j: nat, voltage: StructInstance, keys: ArrayValue)
    requires Editable(e) && HoldsGates(keys, e.gates, e.k, e.v)
    requires Index(j) in Sub(e.g, e.base).kids && Sub(e.g, e.base).kids[Index(j)].Node?
    requires voltage == Sub(e.g, e.base).kids[Index(j)].id
    ensures voltage !in e.gates
  {
    assert voltage in Nodes(Sub(e.g, e.base).kids[Index(j)]);
    assert voltage in Nodes(Sub(e.g, e.base));
  }

  lemma GatesHeld(keys: ArrayValue, structs: set<StructInstance>, k: Graph, v: Vec)
    requires HoldsGates(keys, structs, k, v)
    ensures |keys.elements| == |v| && Gates(keys.elements, structs)
    ensures forall i :: 0 <= i < |v| ==> v[i].gate == GateName(keys.elements[i])
  {
  }

  lemma NodeHeld(values: ArrayValue, a: Graph, j: nat)
    requires IsArray(a) && HoldsNodes(values, a) && j < |a.kids|
    ensures j < |values.elements| && Target(values.elements[j]) <= ElementStructs(values.elements)
    ensures values.elements[j].StructV? && values.elements[j].s != null && Index(j) in a.kids && a.kids[Index(j)].Node?
    ensures values.elements[j].s == a.kids[Index(j)].id && values.elements[j].s in ElementStructs(values.elements)
  {
  }

  lemma ShiftOneCoeff(v: Vec, xs: seq<real>, name: string, delta: real)
    requires |xs| == |v|
    ensures var j, shifted := IndexOf(v, name), ShiftOne(WithCoeffs(v, xs), Entry(name, delta));
            if j < |v| then WithCoeffs(v, xs[j := xs[j] + delta]) == shifted else WithCoeffs(v, xs) == shifted
  {
    var j, u := IndexOf(v, name), WithCoeffs(v, xs);
    hide *;
    WithCoeffsGates(v, xs);
    SameGatesSameIndex(u, v, name);
    ShiftOneIs(u, name, delta);
    GateFound(v, name);
    if j < |v| {
      WithCoeffsSet(v, xs, j, xs[j] + delta);
    }
  }

  lemma GateFound(v: Vec, name: string)
    ensures IndexOf(v, name) < |v| ==> v[IndexOf(v, name)].gate == name
  {
  }

  lemma ShiftOneIs(u: Vec, name: string, delta: real)
    ensures var j := IndexOf(u, name);
            ShiftOne(u, Entry(name, delta)) == if j < |u| then u[j := Entry(name, u[j].coeff + delta)] else u
  {
  }

  lemma WithCoeffsGates(v: Vec, xs: seq<real>)
    requires |v| == |xs|
    ensures SameGates(WithCoeffs(v, xs), v) && |WithCoeffs(v, xs)| == |v|
    ensures forall i :: 0 <= i < |v| ==> WithCoeffs(v, xs)[i].coeff == xs[i]
  {
  }

  lemma WithCoeffsSet(v: Vec, xs: seq<real>, j: nat, y: real)
    requires j < |v| == |xs|
    ensures WithCoeffs(v, xs[j := y]) == WithCoeffs(v, xs)[j := Entry(v[j].gate, y)]
  {
  }

  /** One round of the loops of Shifted: add delta to the offset of the gate, if listed. */
  method ShiftEntry(keys: ArrayValue, values: ArrayValue, gate: RuntimeValue, delta: real,
                    ghost name: string, ghost e: Edit, ghost xs: seq<real>)
      returns (ghost ys: seq<real>)
    requires Editable(e) && |xs| == |e.v| && Edited(e, xs, keys, values)
    requires IsGate(gate) && GateName(gate) == name
    modifies ElementStructs(values.elements)
    ensures |ys| == |e.v| && Edited(e, ys, keys, values)
    ensures WithCoeffs(e.v, ys) == ShiftOne(WithCoeffs(e.v, xs), Entry(name, delta))
  {
    hide *;
    OpenEdited(e, xs, keys, values);
    GatesHeld(keys, e.gates, e.k, e.v);
    ShiftOneCoeff(e.v, xs, name, delta);
    NodesAllocated(WithVolts(e.g, e.base, xs));
    var j := FindGate(keys, gate, name, e.v, e.gates);
    CloseEdited(e, xs, keys, values);
    if j < |keys.elements| {
      ArrayHere(e);
      NodeHeld(values, Sub(e.g, e.base), j);
      var voltage, current := VoltageAt(values, j, e, xs, keys);
      CloseEdited(e, xs, keys, values);
      SetVoltageValue(voltage, current + delta, true, j, e, xs, keys, values);
      ys := xs[j := current + delta];
    } else {
      ys := xs;
    }
  }

  lemma ArrayHere(e: Edit)
    requires VoltagesAt(e.g, e.base)
    ensures IsArray(Sub(e.g, e.base))
  {
  }

  lemma ShiftStep(v: Vec, d: Vec, i: nat)
    requires i < |d|
    ensures ShiftBy(v, d[..i + 1]) == ShiftOne(ShiftBy(v, d[..i]), d[i])
  {
    assert d[..i + 1][..i] == d[..i];
  }

  lemma ShiftEnds(v: Vec, xs: seq<real>, d: Vec)
    requires xs == CoeffsOf(v)
    ensures WithCoeffs(v, xs) == ShiftBy(v, d[..0]) && ShiftBy(v, d[..|d|]) == ShiftBy(v, d)
  {
    assert d[..|d|] == d;
  }

  /** The loop of Shifted over the entries of the direction. */
  method ShiftOffsets(keys: ArrayValue, values: ArrayValue, shiftKeys: ArrayValue, shiftValues: ArrayValue,
                      ghost e: Edit, ghost xs: seq<real>, ghost dv: Vec, ghost structs: set<StructInstance>)
      returns (ghost ys: seq<real>)
    requires Editable(e) && xs == CoeffsOf(e.v) && Edited(e, xs, keys, values)
    requires ListsGates(dv, shiftKeys.elements, structs) && ListsReals(dv, shiftValues.elements)
    requires ElementStructs(values.elements) !! structs
    modifies ElementStructs(values.elements)
    ensures |ys| == |e.v| && Edited(e, ys, keys, values) && WithCoeffs(e.v, ys) == ShiftBy(e.v, dv)
  {
    hide *;
    ys := xs;
    ShiftEnds(e.v, xs, dv);
    ListedLength(dv, shiftKeys.elements, structs);
    var i := 0;
    while i < |shiftKeys.elements|
      invariant i <= |dv| == |shiftKeys.elements| && |ys| == |e.v|
      invariant Edited(e, ys, keys, values) && WithCoeffs(e.v, ys) == ShiftBy(e.v, dv[..i])
      invariant ListsGates(dv, shiftKeys.elements, structs) && ListsReals(dv, shiftValues.elements)
    {
      ListedAt(dv, i, shiftKeys.elements, shiftValues.elements, structs);
      var delta := shiftValues.elements[i].r;
      ys := ShiftEntry(keys, values, shiftKeys.elements[i], delta, dv[i].gate, e, ys);
      ShiftStep(e.v, dv, i);
      i := i + 1;
    }
  }

  ghost function PointEdit(root: RuntimeValue, g: Graph, base: seq<Step>, point: Graph, keys: ArrayValue): Edit
    requires IsPointGraph(point)
    reads keys
  {
    Edit(root, g, base, KeysOf(point), ElementStructs(keys.elements), PointVecOf(point))
  }

  lemma StructsWithin(values: ArrayValue, a: Graph)
    requires IsArray(a) && HoldsNodes(values, a) && Denotes(true, ArrayV(values), a)
    ensures ElementStructs(values.elements) <= Nodes(a)
  {
    ElementNodes(values, a);
    hide Denotes, Nodes, IsArray;
    forall i | 0 <= i < |values.elements|
      ensures Target(values.elements[i]) <= Nodes(a)
    {
      TaggedNode(true, values.elements[i], a.kids[Index(i)]);
    }
  }

  /** The gates and the voltages of an unshared point are different nodes. */
  lemma KeysApart(g: Graph)
    requires IsPointGraph(g) && Separated(g)
    ensures Nodes(KeysOf(g)) !! Nodes(VoltagesOf(g)) && Nodes(VoltagesOf(g)) <= Nodes(g)
  {
    hide Separated, Nodes, IsArray, IsGateGraph, IsVoltageGraph;
    var m := At(g, POINT_MAP);
    SeparatedKid(g, Field(POINT_MAP));
    SeparatedKid(m, Field("keys_"));
    SeparatedKid(m, Field("values_"));
    SeparatedKids(m, Field("keys_"), Field("values_"));
    SeparatedKid(At(m, "keys_"), Native);
    SeparatedKid(At(m, "values_"), Native);
  }

  lemma SeparatedKid(g: Graph, st: Step)
    requires g.Node? && Separated(g) && st in g.kids
    ensures Separated(g.kids[st]) && Nodes(g.kids[st]) <= Nodes(g)
  {
  }

  lemma SeparatedKids(g: Graph, a: Step, b: Step)
    requires g.Node? && Separated(g) && a in g.kids && b in g.kids && a != b
    ensures Nodes(g.kids[a]) !! Nodes(g.kids[b])
  {
  }

  lemma CurrentVolts(g: Graph)
    requires IsPointGraph(g)
    ensures VoltagesAt(g, VALUES_PATH) && |Sub(g, VALUES_PATH).kids| == |PointVecOf(g)|
    ensures WithVolts(g, VALUES_PATH, CoeffsOf(PointVecOf(g))) == g
  {
    PointPaths(g);
    WithVoltsSame(g, VALUES_PATH, CoeffsOf(PointVecOf(g)));
  }

  /** A freshly cloned point is ready for its voltages to be written. */
  lemma StartPointEdit(p: StructInstance, g: Graph)
    requires Denotes(true, StructV(p), g) && Separated(g) && IsPointGraph(g)
    ensures HasMap(p, POINT_MAP)
    ensures var e := PointEdit(StructV(p), g, VALUES_PATH, g, Keys(p, POINT_MAP));
            && Editable(e) && Edited(e, CoeffsOf(e.v), Keys(p, POINT_MAP), Values(p, POINT_MAP))
            && e.root == StructV(p) && e.g == g && e.base == VALUES_PATH && e.v == PointVecOf(g)
    ensures ElementStructs(Values(p, POINT_MAP).elements) <= Nodes(g)
  {
    PointView(p, g);
    PointPaths(g);
    KeysApart(g);
    CurrentVolts(g);
    ValuesNode(p, g);
    StructsWithin(Values(p, POINT_MAP), VoltagesOf(g));
    hide Denotes, Nodes, Separated, IsPointGraph, HoldsGates, HoldsNodes, WithVolts, Sub, Reaches, HasMap;
  }

  lemma ValuesNode(p: StructInstance, g: Graph)
    requires Denotes(true, StructV(p), g) && IsPointGraph(g)
    ensures HasMap(p, POINT_MAP) && Denotes(true, ArrayV(Values(p, POINT_MAP)), VoltagesOf(g))
  {
    FieldNode(true, p, g, POINT_MAP);
    ArrayNode(StructField(p, POINT_MAP), At(g, POINT_MAP), "keys_");
    ArrayNode(StructField(p, POINT_MAP), At(g, POINT_MAP), "values_");
    hide Denotes, Nodes, IsArray;
  }

  /** So is the offset of a freshly cloned axis. */
  lemma StartAxisEdit(c: StructInstance, g: Graph)
    requires Denotes(true, StructV(c), g) && Separated(g) && IsAxisGraph(g)
    ensures HasStruct(c, "offset_") && HasMap(StructField(c, "offset_"), POINT_MAP)
    ensures var p := StructField(c, "offset_");
            var e := PointEdit(StructV(c), g, OFFSETS_PATH, At(g, "offset_"), Keys(p, POINT_MAP));
            && Editable(e) && Edited(e, CoeffsOf(e.v), Keys(p, POINT_MAP), Values(p, POINT_MAP))
            && e.root == StructV(c) && e.g == g && e.base == OFFSETS_PATH && e.v == OffsetVecOf(g)
    ensures ElementStructs(Values(StructField(c, "offset_"), POINT_MAP).elements) <= Nodes(g)
  {
    FieldNode(true, c, g, "offset_");
    SeparatedKid(g, Field("offset_"));
    var p := StructField(c, "offset_");
    StartPointEdit(p, At(g, "offset_"));
    AxisPaths(g);
    PointPaths(At(g, "offset_"));
    CurrentOffsets(g);
    hide Denotes, Nodes, Separated, IsPointGraph, HoldsGates, HoldsNodes, WithVolts, Sub, Reaches, HasMap;
  }

  lemma CurrentOffsets(g: Graph)
    requires IsAxisGraph(g)
    ensures VoltagesAt(g, OFFSETS_PATH) && |Sub(g, OFFSETS_PATH).kids| == |OffsetVecOf(g)|
    ensures WithVolts(g, OFFSETS_PATH, CoeffsOf(OffsetVecOf(g))) == g
  {
    AxisPaths(g);
    WithVoltsSame(g, OFFSETS_PATH, CoeffsOf(OffsetVecOf(g)));
  }

  lemma SameAxis(g: Graph, h: Graph)
    requires Erase(g) == Erase(h) && IsAxisGraph(g)
    ensures IsAxisGraph(h) && OffsetVecOf(h) == OffsetVecOf(g)
  {
    SameStructAt(g, h, "offset_");
    SamePoint(At(g, "offset_"), At(h, "offset_"));
  }

  lemma CoeffsOfWith(v: Vec, xs: seq<real>)
    requires |v| == |xs|
    ensures CoeffsOf(WithCoeffs(v, xs)) == xs
  {
  }

  /** The graph of an edited clone: the value of the source with other offsets. */
  lemma EndAxisEdit(g: Graph, h: Graph, xs: seq<real>)
    requires IsAxisGraph(g) && Erase(h) == Erase(g) && Separated(h) && |xs| == |OffsetVecOf(g)|
    ensures VoltagesAt(h, OFFSETS_PATH) && |Sub(h, OFFSETS_PATH).kids| == |xs|
    ensures VoltagesAt(Erase(g), OFFSETS_PATH) && |Sub(Erase(g), OFFSETS_PATH).kids| == |xs|
    ensures var k := WithVolts(h, OFFSETS_PATH, xs);
            && Separated(k) && Nodes(k) == Nodes(h) && IsAxisGraph(k)
            && OffsetVecOf(k) == WithCoeffs(OffsetVecOf(g), xs)
            && Erase(k) == WithVolts(Erase(g), OFFSETS_PATH, xs)
  {
    hide *;
    SameAxis(g, h);
    CurrentOffsets(h);
    AxisWithVolts(h, xs);
    WithVoltsNodes(h, OFFSETS_PATH, xs);
    EraseWithVolts(h, OFFSETS_PATH, xs);
    IsWithCoeffs(OffsetVecOf(WithVolts(h, OFFSETS_PATH, xs)), OffsetVecOf(g), xs);
  }

  lemma IsWithCoeffs(u: Vec, v: Vec, xs: seq<real>)
    requires |u| == |v| == |xs| && forall i :: 0 <= i < |xs| ==> u[i] == Entry(v[i].gate, xs[i])
    ensures u == WithCoeffs(v, xs)
  {
  }

  /** Shift the axis: clone it, then add every coefficient of the direction to the clone's
      offset at that gate.  self, shift and all they reach stay as they were. */
  method Shifted(self: StructInstance, shift: StructInstance, ghost g: Graph, ghost d: Layout)
      returns (axis: StructInstance, ghost h: Graph)
    requires Denotes(true, StructV(self), g) && IsAxisGraph(g) && OffsetVecOf(g) != []
    requires IsDirection(shift, d)
    ensures Denotes(true, StructV(axis), h) && Separated(h) && fresh(Nodes(h))
    ensures IsAxisGraph(h) && OffsetVecOf(h) == ShiftBy(OffsetVecOf(g), DirectionVec(d))
    ensures VoltagesAt(Erase(g), OFFSETS_PATH) && |Sub(Erase(g), OFFSETS_PATH).kids| == |OffsetVecOf(h)|
    ensures Erase(h) == WithVolts(Erase(g), OFFSETS_PATH, CoeffsOf(OffsetVecOf(h)))
  {
    hide *;
    NodesAllocated(g);
    OpenDirection(shift, d);
    ListedHere(d);
    ghost var dv := DirectionVec(d);
    var shiftKeys, shiftValues := DirectionArrays(shift, d);
    ghost var h0;
    var c;
    c, h0 := CloneAxis(self, g);
    StartAxisEdit(c, h0);
    var offset := StructField(c, "offset_");
    var keys, values := Keys(offset, POINT_MAP), Values(offset, POINT_MAP);
    ghost var e := PointEdit(StructV(c), h0, OFFSETS_PATH, At(h0, "offset_"), keys);
    ghost var xs := ShiftOffsets(keys, values, shiftKeys, shiftValues, e, CoeffsOf(e.v), dv, d.structs);
    EndAxisEdit(g, h0, xs);
    OpenEdited(e, xs, keys, values);
    axis, h := c, WithVolts(h0, OFFSETS_PATH, xs);
    CoeffsOfWith(OffsetVecOf(g), xs);
  }

  method CloneAxis(self: StructInstance, ghost g: Graph) returns (c: StructInstance, ghost h: Graph)
    requires Denotes(true, StructV(self), g) && IsAxisGraph(g)
    ensures Denotes(true, StructV(c), h) && CopyOf(h, g) && Erase(h) == Erase(g) && Separated(h) && fresh(Nodes(h))
    ensures IsAxisGraph(h) && OffsetVecOf(h) == OffsetVecOf(g)
  {
    var r;
    r, h := CloneStruct(true, self, g);
    SameAxis(g, h);
    TaggedNode(true, StructV(r), h);
    c := r;
  }

  /** The inner loop of ToPoint: the amplitude at the direction's own i-th gate, or 0 if
      the direction lists nothing. */
  method AmplitudeAt(keys: ArrayValue, values: ArrayValue, i: nat, ghost d: Layout) returns (coeff: real)
    requires GateReals(d) && keys == d.keys && values == d.values
    requires DirectionVec(d) == [] || i < |DirectionVec(d)|
    ensures coeff == Amplitude(DirectionVec(d), i)
  {
    coeff := 0.0;
    if 0 < |keys.elements| {
      ghost var dv := DirectionVec(d);
      var j := FindGate(keys, keys.elements[i], dv[i].gate, dv, d.structs);
      if j < |keys.elements| {
        coeff := values.elements[j].r;
      }
    }
  }

  /** The loop of ToPoint: offset + coordinate * amplitude for every key in turn. */
  method EvaluateAll(keys: ArrayValue, values: ArrayValue, dirKeys: ArrayValue, dirValues: ArrayValue, t: real,
                     ghost e: Edit, ghost d: Layout, ghost dv: Vec)
      returns (ghost xs: seq<real>)
    requires Editable(e) && Edited(e, CoeffsOf(e.v), keys, values)
    requires GateReals(d) && dirKeys == d.keys && dirValues == d.values && DirectionVec(d) == dv
    requires ToPointInRange(e.v, dv) && ElementStructs(values.elements) !! d.structs
    modifies ElementStructs(values.elements)
    ensures |xs| == |e.v| && Edited(e, xs, keys, values)
    ensures forall k :: 0 <= k < |xs| ==> xs[k] == PointAt(e.v, dv, t)[k].coeff
  {
    hide *;
    xs := CoeffsOf(e.v);
    KeysCount(e, xs, keys, values);
    var i := 0;
    while i < |keys.elements|
      invariant i <= |keys.elements| == |e.v| == |xs| && Edited(e, xs, keys, values)
      invariant GateReals(d) && DirectionVec(d) == dv
      invariant forall k :: 0 <= k < i ==> xs[k] == PointAt(e.v, dv, t)[k].coeff
      invariant forall k :: i <= k < |xs| ==> xs[k] == e.v[k].coeff
    {
      PlaceHere(e, i, values, xs, keys);
      OpenEdited(e, xs, keys, values);
      NodesAllocated(WithVolts(e.g, e.base, xs));
      CoeffHere(e.v, dv, t, i);
      var coeff := AmplitudeAt(dirKeys, dirValues, i, d);
      CloseEdited(e, xs, keys, values);
      var voltage, offset := VoltageAt(values, i, e, xs, keys);
      CloseEdited(e, xs, keys, values);
      var y := offset + Times(t, coeff);
      SetVoltageValue(voltage, y, true, i, e, xs, keys, values);
      xs := xs[i := y];
      i := i + 1;
    }
  }

  lemma CoeffHere(off: Vec, dv: Vec, t: real, i: nat)
    requires i < |off| && ToPointInRange(off, dv)
    ensures (dv == [] || i < |dv|) && PointAt(off, dv, t)[i].coeff == off[i].coeff + Times(t, Amplitude(dv, i))
  {
  }

  lemma KeysCount(e: Edit, xs: seq<real>, keys: ArrayValue, values: ArrayValue)
    requires Editable(e) && |xs| == |e.v| && Edited(e, xs, keys, values)
    ensures |keys.elements| == |e.v|
  {
  }

  lemma PlaceHere(e: Edit, i: nat, values: ArrayValue, xs: seq<real>, keys: ArrayValue)
    requires Editable(e) && i < |xs| == |e.v| && Edited(e, xs, keys, values)
    ensures VoltagesAt(e.g, e.base) && IsArray(Sub(e.g, e.base)) && i < |values.elements|
    ensures values.elements[i].StructV? && values.elements[i].s != null
    ensures Index(i) in Sub(e.g, e.base).kids && Sub(e.g, e.base).kids[Index(i)].Node?
    ensures values.elements[i].s == Sub(e.g, e.base).kids[Index(i)].id
    ensures values.elements[i].s in ElementStructs(values.elements)
  {
    hide *;
    OpenEdited(e, xs, keys, values);
    ArrayHere(e);
    NodeHeld(values, Sub(e.g, e.base), i);
  }

  lemma EndPointEdit(g: Graph, h: Graph, xs: seq<real>)
    requires IsPointGraph(g) && Erase(h) == Erase(g) && Separated(h) && |xs| == |PointVecOf(g)|
    ensures VoltagesAt(h, VALUES_PATH) && |Sub(h, VALUES_PATH).kids| == |xs|
    ensures VoltagesAt(Erase(g), VALUES_PATH) && |Sub(Erase(g), VALUES_PATH).kids| == |xs|
    ensures var k := WithVolts(h, VALUES_PATH, xs);
            && Separated(k) && Nodes(k) == Nodes(h) && IsPointGraph(k)
            && PointVecOf(k) == WithCoeffs(PointVecOf(g), xs)
            && Erase(k) == WithVolts(Erase(g), VALUES_PATH, xs)
  {
    hide *;
    SamePoint(g, h);
    CurrentVolts(h);
    PointWithVolts(h, xs);
    WithVoltsNodes(h, VALUES_PATH, xs);
    EraseWithVolts(h, VALUES_PATH, xs);
    IsWithCoeffs(PointVecOf(WithVolts(h, VALUES_PATH, xs)), PointVecOf(g), xs);
  }

  lemma IsPointAt(off: Vec, dv: Vec, t: real, xs: seq<real>)
    requires ToPointInRange(off, dv) && |xs| == |off|
    requires forall k :: 0 <= k < |xs| ==> xs[k] == PointAt(off, dv, t)[k].coeff
    ensures WithCoeffs(off, xs) == PointAt(off, dv, t)
  {
    hide Times, Coeff;
  }

  method ClonePoint(p: StructInstance, ghost g: Graph) returns (c: StructInstance, ghost h: Graph)
    requires Denotes(true, StructV(p), g) && IsPointGraph(g)
    ensures Denotes(true, StructV(c), h) && CopyOf(h, g) && Erase(h) == Erase(g) && Separated(h) && fresh(Nodes(h))
    ensures IsPointGraph(h) && PointVecOf(h) == PointVecOf(g)
  {
    var r;
    r, h := CloneStruct(true, p, g);
    SamePoint(g, h);
    TaggedNode(true, StructV(r), h);
    c := r;
  }

  /** The point of the axis at a coordinate: a copy of the offset, each voltage moved by
      coordinate times the amplitude the code looks up.  The axis stays as it was. */
  method ToPoint(self: StructInstance, coordinate: StructInstance, ghost t: real, ghost g: Graph, ghost d: Layout)
      returns (point: StructInstance, ghost h: Graph)
    requires HasStruct(self, "offset_") && Denotes(true, StructV(StructField(self, "offset_")), g)
    requires IsPointGraph(g) && PointVecOf(g) != []
    requires HasStruct(self, "direction_") && IsDirection(StructField(self, "direction_"), d)
    requires IsVoltage(StructV(coordinate)) && VoltageValue(StructV(coordinate)) == t
    requires ToPointInRange(PointVecOf(g), DirectionVec(d))
    ensures Denotes(true, StructV(point), h) && Separated(h) && fresh(Nodes(h)) && IsPointGraph(h)
    ensures PointVecOf(h) == PointAt(PointVecOf(g), old(DirectionVec(d)), t)
    ensures VoltagesAt(Erase(g), VALUES_PATH) && |Sub(Erase(g), VALUES_PATH).kids| == |PointVecOf(h)|
    ensures Erase(h) == WithVolts(Erase(g), VALUES_PATH, CoeffsOf(PointVecOf(h)))
  {
    hide *;
    var direction, offset := StructField(self, "direction_"), StructField(self, "offset_");
    OpenDirection(direction, d);
    ghost var dv, off := DirectionVec(d), PointVecOf(g);
    var coord := VoltageValue(StructV(coordinate));
    NodesAllocated(g);
    var dirKeys, dirValues := DirectionArrays(direction, d);
    ghost var h0;
    point, h0 := ClonePoint(offset, g);
    StartPointEdit(point, h0);
    var keys, values := Keys(point, POINT_MAP), Values(point, POINT_MAP);
    ghost var e := PointEdit(StructV(point), h0, VALUES_PATH, h0, keys);
    ghost var xs := EvaluateAll(keys, values, dirKeys, dirValues, coord, e, d, dv);
    EndPointEdit(g, h0, xs);
    OpenEdited(e, xs, keys, values);
    h := WithVolts(h0, VALUES_PATH, xs);
    CoeffsOfWith(off, xs);
    IsPointAt(off, dv, t, xs);
  }

  function Zeros(n: nat): (xs: seq<real>)
    ensures |xs| == n && forall i :: 0 <= i < n ==> xs[i] == 0.0
  {
    if n == 0 then [] else Zeros(n - 1) + [0.0]
  }

  /** Set every offset of the axis to zero, in place.  Only voltages change, and of those
      only the value; the arrays and everything else the axis reaches stay.  Where the offsets
      are an unshared array under edit (tracked), they are the zero vector afterwards. */
  method ZeroOffsets(self: StructInstance, ghost values: ArrayValue,
                     ghost tracked: bool, ghost e: Edit, ghost xs: seq<real>, ghost keys: ArrayValue)
    requires HasStruct(self, "offset_") && HasMap(StructField(self, "offset_"), POINT_MAP)
    requires values == Values(StructField(self, "offset_"), POINT_MAP)
    requires Voltages(values.elements, ElementStructs(values.elements))
    requires tracked ==> Editable(e) && |xs| == |e.v| && Edited(e, xs, keys, values)
    modifies ElementStructs(values.elements)
    ensures Voltages(values.elements, ElementStructs(values.elements))
    ensures forall i :: 0 <= i < |values.elements| ==> VoltageValue(values.elements[i]) == 0.0
    ensures forall s :: s in ElementStructs(values.elements) ==>
              s.fields == old(s.fields)["value_" := RealV(0.0)] && s.nativeHandle == old(s.nativeHandle)
    ensures tracked ==> Edited(e, Zeros(|e.v|), keys, values)
  {
    var arr := Values(StructField(self, "offset_"), POINT_MAP);
    StructElements(values.elements);
    hide *;
    ZeroAll(arr, tracked, e, xs, keys);
    ZeroVoltages(values.elements);
  }

  lemma StructElements(vs: seq<RuntimeValue>)
    requires Voltages(vs, ElementStructs(vs))
    ensures forall k :: 0 <= k < |vs| ==> vs[k].StructV? && vs[k].s != null
  {
  }

  /** The loop of ZeroOffsets. */
  method ZeroAll(arr: ArrayValue, ghost tracked: bool, ghost e: Edit, ghost xs: seq<real>, ghost keys: ArrayValue)
    requires forall k :: 0 <= k < |arr.elements| ==> arr.elements[k].StructV? && arr.elements[k].s != null
    requires tracked ==> Editable(e) && |xs| == |e.v| && Edited(e, xs, keys, arr)
    modifies ElementStructs(arr.elements)
    ensures forall s :: s in ElementStructs(arr.elements) ==>
              s.fields == old(s.fields)["value_" := RealV(0.0)] && s.nativeHandle == old(s.nativeHandle)
    ensures tracked ==> Edited(e, Zeros(|e.v|), keys, arr)
  {
    hide *;
    ghost var vs, done, ys: seq<real> := arr.elements, {}, xs;
    ghost var all := ElementStructs(vs);
    NoStructs(vs);
    ElementsAllocated(vs);
    var i := 0;
    if tracked {
      KeysCount(e, xs, keys, arr);
      ValuesCount(e, xs, keys, arr);
    }
    while i < |arr.elements|
      invariant forall s :: s in all ==> old(allocated(s))
      invariant i <= |vs| && done == ElementStructs(vs[..i]) <= all
      invariant forall s :: s in done ==>
                  s.fields == old(s.fields)["value_" := RealV(0.0)] && s.nativeHandle == old(s.nativeHandle)
      invariant forall s :: s in all - done ==> s.fields == old(s.fields) && s.nativeHandle == old(s.nativeHandle)
      invariant tracked ==> |ys| == |e.v| == |vs| && Edited(e, ys, keys, arr) && forall k :: 0 <= k < i ==> ys[k] == 0.0
    {
      NextStruct(vs, i);
      if tracked {
        PlaceHere(e, i, arr, ys, keys);
      }
      var voltage := arr.elements[i].s;
      SetAgain(old(voltage.fields), 0.0);
      SetVoltageValue(voltage, 0.0, tracked, i, e, ys, keys, arr);
      if tracked {
        ys := ys[i := 0.0];
      }
      done := done + {voltage};
      i := i + 1;
    }
    assert vs[..|vs|] == vs;
    assert tracked ==> ys == Zeros(|e.v|);
  }

  lemma ElementsAllocated(vs: seq<RuntimeValue>)
    ensures forall s :: s in ElementStructs(vs) ==> allocated(s)
  {
  }

  lemma NoStructs(vs: seq<RuntimeValue>)
    ensures ElementStructs(vs[..0]) == {}
  {
  }

  lemma ValuesCount(e: Edit, xs: seq<real>, keys: ArrayValue, values: ArrayValue)
    requires Editable(e) && |xs| == |e.v| && Edited(e, xs, keys, values)
    ensures |values.elements| == |e.v|
  {
  }

  lemma SetAgain(fields: map<string, RuntimeValue>, x: real)
    ensures fields["value_" := RealV(x)]["value_" := RealV(x)] == fields["value_" := RealV(x)]
  {
  }

  lemma ZeroVoltages(vs: seq<RuntimeValue>)
    requires forall k :: 0 <= k < |vs| ==> vs[k].StructV? && vs[k].s != null
    requires forall s :: s in ElementStructs(vs) ==> "value_" in s.fields && s.fields["value_"] == RealV(0.0)
    ensures Voltages(vs, ElementStructs(vs)) && forall i :: 0 <= i < |vs| ==> VoltageValue(vs[i]) == 0.0
  {
    forall i | 0 <= i < |vs|
      ensures Target(vs[i]) <= ElementStructs(vs) && vs[i].s in ElementStructs(vs)
    {
      assert vs[i].s in Target(vs[i]);
    }
  }

  lemma NextStruct(vs: seq<RuntimeValue>, i: nat)
    requires i < |vs| && vs[i].StructV? && vs[i].s != null
    ensures ElementStructs(vs[..i + 1]) == ElementStructs(vs[..i]) + {vs[i].s} && vs[i].s in ElementStructs(vs)
  {
    var a, b := vs[..i + 1], vs[..i];
    assert a == b + [vs[i]];
    assert vs[i].s in Target(a[i]);
    forall o | o in ElementStructs(b)
      ensures o in ElementStructs(a)
    {
      var k :| 0 <= k < |b| && o in Target(b[k]);
      assert o in Target(a[k]);
    }
  }

  method MakeArrayStruct() returns (arr: StructInstance, items: ArrayValue)
    ensures fresh(arr) && fresh(items) && IsArrayStruct(arr, items) && items.elements == []
  {
    items := new ArrayValue();
    arr := new StructInstance("Array");
    arr.nativeHandle := ArrayHandle(items);
  }

  /** The parallel voltages of a point, as the heap holds them. */
  ghost predicate HoldsVolts(es: seq<RuntimeValue>, structs: set<StructInstance>, v: Vec)
    reads structs
  {
    Voltages(es, structs) && |es| == |v| && forall i :: 0 <= i < |v| ==> VoltageValue(es[i]) == v[i].coeff
  }

  /** The gates of a point, as the heap holds them. */
  ghost predicate HoldsNames(es: seq<RuntimeValue>, structs: set<StructInstance>, v: Vec)
    reads structs
  {
    Gates(es, structs) && |es| == |v| && forall i :: 0 <= i < |v| ==> GateName(es[i]) == v[i].gate
  }

  /** The loop of NewFromPoints: pair the gates of the offset with voltage differences. */
  method FillDirection(offsetKeys: ArrayValue, offsetValues: ArrayValue, pointValues: ArrayValue,
                       keys: ArrayValue, values: ArrayValue, ghost off: Vec, ghost pt: Vec,
                       ghost s: set<StructInstance>, ghost s1: set<StructInstance>, ghost s2: set<StructInstance>)
    requires keys != values && keys != offsetKeys && keys != offsetValues && keys != pointValues
    requires values != offsetKeys && values != offsetValues && values != pointValues
    requires keys.elements == [] && values.elements == []
    requires HoldsNames(offsetKeys.elements, s, off) && |off| <= |pt|
    requires HoldsVolts(offsetValues.elements, s1, off) && HoldsVolts(pointValues.elements, s2, pt)
    modifies keys, values
    ensures |keys.elements| == |values.elements| && Gates(keys.elements, s) && Reals(values.elements)
    ensures VecOf(keys.elements, values.elements, s) == Between(off, pt) && keys.elements == offsetKeys.elements
  {
    var i := 0;
    while i < |offsetKeys.elements|
      invariant i <= |offsetKeys.elements| && |values.elements| == i && Reals(values.elements)
      invariant keys.elements == offsetKeys.elements[..i]
      invariant forall j :: 0 <= j < i ==> values.elements[j].r == pt[j].coeff - off[j].coeff
    {
      var gate := offsetKeys.elements[i];
      var o := VoltageValue(offsetValues.elements[i]);
      var p := VoltageValue(pointValues.elements[i]);
      keys.elements := keys.elements + [gate];
      values.elements := values.elements + [RealV(p - o)];
      i := i + 1;
    }
    hide HoldsNames, HoldsVolts, Between;
    IsBetween(keys.elements, values.elements, s, off, pt);
  }

  lemma IsBetween(keys: seq<RuntimeValue>, values: seq<RuntimeValue>, s: set<StructInstance>, off: Vec, pt: Vec)
    requires HoldsNames(keys, s, off) && |off| <= |pt|
    requires |values| == |keys| && Reals(values)
    requires forall j :: 0 <= j < |values| && j < |off| ==> values[j].r == pt[j].coeff - off[j].coeff
    ensures |keys| == |off| && Gates(keys, s) && VecOf(keys, values, s) == Between(off, pt)
  {
  }

  lemma HeldNames(keys: ArrayValue, k: Graph, v: Vec)
    requires HoldsGates(keys, ElementStructs(keys.elements), k, v)
    ensures HoldsNames(keys.elements, ElementStructs(keys.elements), v)
  {
    hide Nodes;
  }

  lemma AssembleVolts(es: seq<RuntimeValue>, v: Vec)
    requires |es| == |v| && forall i :: 0 <= i < |v| ==> IsVoltage(es[i]) && VoltageValue(es[i]) == v[i].coeff
    ensures HoldsVolts(es, ElementStructs(es), v)
  {
    hide IsVoltage, VoltageValue;
  }

  lemma PointVolts(p: StructInstance, g: Graph)
    requires Denotes(true, StructV(p), g) && IsPointGraph(g)
    ensures HasMap(p, POINT_MAP)
    ensures HoldsNames(Keys(p, POINT_MAP).elements, ElementStructs(Keys(p, POINT_MAP).elements), PointVecOf(g))
    ensures HoldsVolts(Values(p, POINT_MAP).elements, ElementStructs(Values(p, POINT_MAP).elements), PointVecOf(g))
  {
    PointView(p, g);
    HeldNames(Keys(p, POINT_MAP), KeysOf(g), PointVecOf(g));
    hide *;
    AssembleVolts(Values(p, POINT_MAP).elements, PointVecOf(g));
  }

  lemma KeysNode(p: StructInstance, g: Graph)
    requires Denotes(true, StructV(p), g) && IsPointGraph(g)
    ensures HasMap(p, POINT_MAP) && StructAt(g, POINT_MAP) && ArrayAt(At(g, POINT_MAP), "keys_") && IsArray(KeysOf(g))
    ensures Denotes(true, ArrayV(Keys(p, POINT_MAP)), KeysOf(g)) && Nodes(KeysOf(g)) <= Nodes(g)
  {
    FieldNode(true, p, g, POINT_MAP);
    ArrayNode(StructField(p, POINT_MAP), At(g, POINT_MAP), "keys_");
    ArrayNode(StructField(p, POINT_MAP), At(g, POINT_MAP), "values_");
    hide Denotes, Nodes, IsArray;
  }

  /** The axis through two points: a private copy of the first, and a new direction with the
      voltage differences under the first point's own gate structs. */
  method NewFromPoints(offset: StructInstance, point: StructInstance, ghost g: Graph, ghost gp: Graph)
      returns (axis: StructInstance, ghost h: Graph, ghost d: Layout, ghost whole: Graph)
    requires Denotes(true, StructV(offset), g) && IsPointGraph(g)
    requires Denotes(true, StructV(point), gp) && IsPointGraph(gp) && |PointVecOf(g)| <= |PointVecOf(gp)|
    ensures fresh(axis) && fresh(Nodes(h)) && fresh(d.keys) && fresh(d.values)
    ensures HasStruct(axis, "offset_") && Denotes(true, StructV(StructField(axis, "offset_")), h)
    ensures CopyOf(h, g) && IsPointGraph(h) && PointVecOf(h) == PointVecOf(g)
    ensures HasStruct(axis, "direction_") && IsDirection(StructField(axis, "direction_"), d)
    ensures fresh(Spine(StructField(axis, "direction_"), DIRECTION_MAP))
    ensures DirectionVec(d) == Between(PointVecOf(g), PointVecOf(gp))
    ensures Denotes(true, StructV(axis), whole) && IsWholeAxis(whole) && At(whole, "offset_") == h
    ensures whole.tag == StructTag("ControlAxis", NoHandle) && whole.kids.Keys == {Field("offset_"), Field("direction_")}
    ensures OffsetVecOf(whole) == PointVecOf(g) && DirVecOf(whole) == Between(PointVecOf(g), PointVecOf(gp))
    ensures GatesIn(At(whole, "direction_")).id != RealsIn(At(whole, "direction_")).id
    ensures Nodes(h) !! Nodes(At(whole, "direction_")) && axis !in Nodes(h) && whole.id == axis
    ensures IsNewAxis(axis)
  {
    hide *;
    NodesAllocated(g);
    NodesAllocated(gp);
    var copy;
    copy, h := ClonePoint(offset, g);
    NodesAllocated(h);
    var direction;
    ghost var dg;
    direction, d, dg := DirectionBetween(offset, point, g, gp);
    NodesAllocated(dg);
    SpineAllocated(direction);
    axis := NewAxis(copy, direction);
    whole := AxisGraphOf(axis, copy, direction, h, dg);
  }

  lemma SpineAllocated(d: StructInstance)
    ensures forall s :: s in Accessors.Below(d, DIRECTION_MAP) ==> allocated(s)
    ensures forall s :: s in Spine(d, DIRECTION_MAP) ==> allocated(s)
  {
  }

  /** An axis struct with its two fields and no more. */
  ghost predicate IsNewAxis(axis: StructInstance)
    reads axis
  {
    && HasStruct(axis, "offset_") && HasStruct(axis, "direction_")
    && IsPlainStruct(axis, "ControlAxis", map["offset_" := axis.fields["offset_"], "direction_" := axis.fields["direction_"]])
  }

  lemma AxisGraphOf(axis: StructInstance, offset: StructInstance, direction: StructInstance, h: Graph, dg: Graph)
      returns (whole: Graph)
    requires HasStruct(axis, "offset_") && StructField(axis, "offset_") == offset
    requires HasStruct(axis, "direction_") && StructField(axis, "direction_") == direction && IsNewAxis(axis)
    requires Denotes(true, StructV(offset), h) && IsPointGraph(h)
    requires Denotes(true, StructV(direction), dg) && IsDirectionGraph(dg)
    ensures Denotes(true, StructV(axis), whole) && IsWholeAxis(whole)
    ensures At(whole, "offset_") == h && At(whole, "direction_") == dg
    ensures OffsetVecOf(whole) == PointVecOf(h) && DirVecOf(whole) == DirectionVecOf(dg)
    ensures whole.Node? && whole.id == axis && whole.tag == StructTag("ControlAxis", NoHandle)
    ensures whole.kids == map[Field("offset_") := h, Field("direction_") := dg]
  {
    hide Denotes, IsArray, ArrayAt;
    var fields := map["offset_" := StructV(offset), "direction_" := StructV(direction)];
    whole := PlainStructGraph(axis, "ControlAxis", fields, map[Field("offset_") := h, Field("direction_") := dg]);
  }

  method DirectionBetween(offset: StructInstance, point: StructInstance, ghost g: Graph, ghost gp: Graph)
      returns (direction: StructInstance, ghost d: Layout, ghost dg: Graph)
    requires Denotes(true, StructV(offset), g) && IsPointGraph(g)
    requires Denotes(true, StructV(point), gp) && IsPointGraph(gp) && |PointVecOf(g)| <= |PointVecOf(gp)|
    ensures fresh(d.keys) && fresh(d.values) && fresh(Spine(direction, DIRECTION_MAP))
    ensures IsDirection(direction, d) && DirectionVec(d) == Between(PointVecOf(g), PointVecOf(gp))
    ensures Denotes(true, StructV(direction), dg) && IsDirectionGraph(dg)
    ensures DirectionVecOf(dg) == Between(PointVecOf(g), PointVecOf(gp)) && GatesIn(dg).id != RealsIn(dg).id
    ensures fresh(Nodes(dg) - Nodes(g))
  {
    hide *;
    NodesAllocated(g);
    NodesAllocated(gp);
    ghost var off, pt := PointVecOf(g), PointVecOf(gp);
    var offsetKeys, offsetValues, s, s1 := ReadPoint(offset, g);
    KeysNode(offset, g);
    NodesAllocated(KeysOf(g));
    var _, pointValues, _, s2 := ReadPoint(point, gp);
    var keys, values;
    ghost var p;
    direction, keys, values, d, p := NewDirection(s);
    SpineAllocated(direction);
    FillDirection(offsetKeys, offsetValues, pointValues, keys, values, off, pt, s, s1, s2);
    CloseDirection(direction, d, s);
    ghost var k := GateArray(keys, offsetKeys, KeysOf(g));
    ghost var r := RealArray(values);
    dg := AssembledGraph(p, k, r);
    BetweenIsDirection(g, gp, dg, keys.elements, values.elements, s);
  }

  lemma BetweenIsDirection(g: Graph, gp: Graph, dg: Graph, keys: seq<RuntimeValue>, values: seq<RuntimeValue>,
                           s: set<StructInstance>)
    requires IsPointGraph(g) && IsPointGraph(gp) && |PointVecOf(g)| <= |PointVecOf(gp)|
    requires HasArrays(dg) && GatesIn(dg).kids == KeysOf(g).kids && |RealsIn(dg).kids| == |values|
    requires |keys| == |values| && Gates(keys, s) && Reals(values)
    requires VecOf(keys, values, s) == Between(PointVecOf(g), PointVecOf(gp))
    requires forall i :: 0 <= i < |values| ==> RealsIn(dg).kids[Index(i)] == Leaf(values[i])
    ensures IsDirectionGraph(dg) && DirectionVecOf(dg) == Between(PointVecOf(g), PointVecOf(gp))
  {
    hide HasArrays, IsArray, StructAt, ArrayAt, IsGateGraph, IsVoltageGraph;
    DirectionGraphIs(dg, Between(PointVecOf(g), PointVecOf(gp)));
  }

  /** Reads the two arrays of a point. */
  method ReadPoint(p: StructInstance, ghost g: Graph)
      returns (keys: ArrayValue, values: ArrayValue, ghost s: set<StructInstance>, ghost t: set<StructInstance>)
    requires Denotes(true, StructV(p), g) && IsPointGraph(g)
    ensures HoldsNames(keys.elements, s, PointVecOf(g)) && HoldsVolts(values.elements, t, PointVecOf(g))
    ensures HasMap(p, POINT_MAP) && keys == Keys(p, POINT_MAP)
  {
    PointVolts(p, g);
    hide HoldsNames, HoldsVolts, Denotes, IsPointGraph;
    keys, values := Keys(p, POINT_MAP), Values(p, POINT_MAP);
    s, t := ElementStructs(keys.elements), ElementStructs(values.elements);
  }

  lemma CloseDirection(direction: StructInstance, d: Layout, gates: set<StructInstance>)
    requires Leads(direction, DIRECTION_MAP, d) && d.keys != d.values && gates <= d.structs
    requires |d.keys.elements| == |d.values.elements| && Gates(d.keys.elements, gates) && Reals(d.values.elements)
    ensures IsDirection(direction, d) && DirectionVec(d) == VecOf(d.keys.elements, d.values.elements, gates)
  {
  }

  method NewAxis(offset: StructInstance, direction: StructInstance) returns (axis: StructInstance)
    ensures fresh(axis) && HasStruct(axis, "offset_") && StructField(axis, "offset_") == offset
    ensures HasStruct(axis, "direction_") && StructField(axis, "direction_") == direction
    ensures IsNewAxis(axis)
  {
    axis := new StructInstance("ControlAxis");
    axis.fields := axis.fields["offset_" := StructV(offset)];
    axis.fields := axis.fields["direction_" := StructV(direction)];
  }

  /** An empty direction: the struct, its map and the two array structs. */
  method NewDirection(ghost gates: set<StructInstance>)
      returns (direction: StructInstance, keys: ArrayValue, values: ArrayValue, ghost d: Layout, ghost p: Parts)
    ensures fresh(keys) && fresh(values) && keys != values && keys.elements == [] && values.elements == []
    ensures d.keys == keys && d.values == values && gates <= d.structs && Leads(direction, DIRECTION_MAP, d)
    ensures fresh(Spine(direction, DIRECTION_MAP))
    ensures Assembled(p) && p.direction == direction && p.keys == keys && p.values == values
    ensures fresh({p.direction, p.dir, p.keysStruct, p.valuesStruct})
  {
    var keysStruct, valuesStruct;
    direction := new StructInstance("Direction");
    var m := new StructInstance("Map");
    keysStruct, keys := MakeArrayStruct();
    valuesStruct, values := MakeArrayStruct();
    m.fields := m.fields["keys_" := StructV(keysStruct)];
    m.fields := m.fields["values_" := StructV(valuesStruct)];
    direction.fields := direction.fields[DIRECTION_MAP := StructV(m)];
    p := Parts(direction, m, keysStruct, valuesStruct, keys, values);
    d := Layout(PartStructs(p) + gates, keys, values);
    AssembledLeads(p, gates);
    hide Leads, Spine;
  }
}
