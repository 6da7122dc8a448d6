/** What the heap holds where a value unfolds to the graph of a point or an axis. */
module AxisView {
  import opened RuntimeGraph
  import opened SparseVector
  import opened Accessors
  import opened AxisGraph

  lemma FieldNode(deep: bool, s: StructInstance, g: Graph, f: string)
    requires Denotes(deep, StructV(s), g) && StructAt(g, f)
    ensures HasStruct(s, f) && StructField(s, f) == At(g, f).id
    ensures Denotes(deep, StructV(StructField(s, f)), At(g, f)) && Nodes(At(g, f)) <= Nodes(g)
  {
    hide Denotes, Nodes, KidsDenote, NativeKid, Named;
    var vals := Named(s.fields) + NativeKid(deep, s);
    StructKids(deep, s, g);
    KidsDenoteKeys(deep, vals, g.kids, Nodes(g));
    NamedAt(s.fields, f);
    KidAt(deep, vals, g.kids, Nodes(g), Field(f));
    TaggedNode(deep, s.fields[f], At(g, f));
  }

  lemma TaggedNode(deep: bool, v: RuntimeValue, g: Graph)
    requires Denotes(deep, v, g) && g.Node?
    ensures v.IsNode() && v.Id() == g.id && g.id in Nodes(g)
    ensures g.tag.StructTag? ==> v.StructV?
    ensures g.tag.ArrayTag? ==> v.ArrayV?
  {
  }

  lemma NativeNode(s: StructInstance, g: Graph)
    requires Denotes(true, StructV(s), g) && g.Node? && Native in g.kids && IsArray(g.kids[Native])
    ensures s.nativeHandle.ArrayHandle? && s.nativeHandle.arr != null && s.nativeHandle.arr == g.kids[Native].id
    ensures Denotes(true, ArrayV(s.nativeHandle.arr), g.kids[Native]) && Nodes(g.kids[Native]) <= Nodes(g)
  {
    assert g.kids[Native].Node? && g.kids[Native].tag.ArrayTag?;
    hide Denotes, Nodes, KidsDenote, Named, IsArray;
    StructKids(true, s, g);
    KidAt(true, Named(s.fields) + NativeKid(true, s), g.kids, Nodes(g), Native);
    TaggedNode(true, ArrayV(s.nativeHandle.arr), g.kids[Native]);
  }

  lemma ArrayNode(s: StructInstance, g: Graph, f: string)
    requires Denotes(true, StructV(s), g) && ArrayAt(g, f)
    ensures HasArray(s, f) && ArrayField(s, f) == ArrayOf(g, f).id
    ensures Denotes(true, ArrayV(ArrayField(s, f)), ArrayOf(g, f)) && Nodes(ArrayOf(g, f)) <= Nodes(g)
  {
    hide Denotes, Nodes, IsArray;
    FieldNode(true, s, g, f);
    NativeNode(StructField(s, f), At(g, f));
  }

  lemma {:induction false} CountIndices(n: nat)
    ensures |(set i: nat | i < n :: Index(i))| == n
  {
    if n > 0 {
      CountIndices(n - 1);
      assert (set i: nat | i < n :: Index(i)) == (set i: nat | i < n - 1 :: Index(i)) + {Index(n - 1)};
    }
  }

  lemma ElementNodes(a: ArrayValue, g: Graph)
    requires Denotes(true, ArrayV(a), g) && IsArray(g)
    ensures |a.elements| == |g.kids|
    ensures forall i :: 0 <= i < |a.elements| ==>
              Denotes(true, a.elements[i], g.kids[Index(i)]) && Nodes(g.kids[Index(i)]) <= Nodes(g)
  {
    hide Denotes, Nodes, KidsDenote, Indexed;
    KidsOfDenote(true, ArrayV(a), g);
    assert g.kids.Keys == (set i: nat | i < |g.kids| :: Index(i));
    forall i: nat
      ensures Index(i) in g.kids <==> i < |a.elements|
    {
      IndexedAt(a.elements, i);
    }
    assert Index(|a.elements|) !in g.kids && Index(|g.kids|) !in g.kids;
    forall i | 0 <= i < |a.elements|
      ensures Denotes(true, a.elements[i], g.kids[Index(i)]) && Nodes(g.kids[Index(i)]) <= Nodes(g)
    {
      IndexedAt(a.elements, i);
      KidAt(true, Indexed(a.elements), g.kids, Nodes(g), Index(i));
    }
  }

  /** A scalar field reads as the leaf it unfolds to. */
  lemma LeafField(deep: bool, v: RuntimeValue, g: Graph, f: string)
    requires Denotes(deep, v, g) && g.Node? && g.tag.StructTag? && Field(f) in g.kids && g.kids[Field(f)].Leaf?
    ensures v.StructV? && v.s != null && v.s == g.id && v.s in Nodes(g)
    ensures f in v.s.fields && v.s.fields[f] == g.kids[Field(f)].v
  {
    hide KidsDenote, NativeKid, Named;
    TaggedNode(deep, v, g);
    var s := v.s;
    var vals := Named(s.fields) + NativeKid(deep, s);
    StructKids(deep, s, g);
    KidsDenoteKeys(deep, vals, g.kids, Nodes(g));
    NamedAt(s.fields, f);
    KidAt(deep, vals, g.kids, Nodes(g), Field(f));
  }

  /** The structs among the elements of an array. */
  ghost function ElementStructs(keys: seq<RuntimeValue>): set<StructInstance> {
    set i, o | 0 <= i < |keys| && o in Target(keys[i]) :: o
  }

  /** An array of the gates of v, in structs that are nodes of graph k. */
  ghost predicate HoldsGates(keys: ArrayValue, structs: set<StructInstance>, k: Graph, v: Vec)
    reads keys, structs
  {
    && |keys.elements| == |v| && structs <= Nodes(k) && Gates(keys.elements, structs)
    && forall i :: 0 <= i < |v| ==> GateName(keys.elements[i]) == v[i].gate
  }

  /** An array of the voltage nodes of graph a. */
  ghost predicate HoldsNodes(values: ArrayValue, a: Graph)
    requires IsArray(a)
    reads values
  {
    && |values.elements| == |a.kids|
    && forall i :: 0 <= i < |a.kids| ==>
         values.elements[i].StructV? && values.elements[i].s != null && a.kids[Index(i)].Node? &&
         values.elements[i].s == a.kids[Index(i)].id
  }

  lemma GateNode(v: RuntimeValue, g: Graph, name: string)
    requires Denotes(true, v, g) && IsGateGraph(g) && g.kids[Field("name_")].v.t == name
    ensures IsGate(v) && GateName(v) == name && Target(v) <= Nodes(g)
  {
    LeafField(true, v, g, "name_");
  }

  lemma AssembleGates(keys: ArrayValue, nodes: set<object>, k: Graph, v: Vec)
    requires |keys.elements| == |v| && nodes == Nodes(k)
    requires forall i :: 0 <= i < |v| ==> IsGate(keys.elements[i]) && GateName(keys.elements[i]) == v[i].gate
    requires forall i :: 0 <= i < |v| ==> Target(keys.elements[i]) <= nodes
    ensures HoldsGates(keys, ElementStructs(keys.elements), k, v)
  {
    hide Nodes, IsGate, Target;
  }

  lemma GatesView(keys: ArrayValue, k: Graph, v: Vec)
    requires Denotes(true, ArrayV(keys), k) && IsArray(k) && |v| == |k.kids|
    requires forall i: nat :: i < |k.kids| ==>
               IsGateGraph(k.kids[Index(i)]) && k.kids[Index(i)].kids[Field("name_")].v.t == v[i].gate
    ensures HoldsGates(keys, ElementStructs(keys.elements), k, v)
  {
    ElementNodes(keys, k);
    hide *;
    forall i | 0 <= i < |keys.elements|
      ensures IsGate(keys.elements[i]) && GateName(keys.elements[i]) == v[i].gate && Target(keys.elements[i]) <= Nodes(k)
    {
      GateNode(keys.elements[i], k.kids[Index(i)], v[i].gate);
    }
    AssembleGates(keys, Nodes(k), k, v);
  }

  lemma VoltagesView(values: ArrayValue, a: Graph)
    requires Denotes(true, ArrayV(values), a) && IsVoltageArray(a)
    ensures HoldsNodes(values, a)
    ensures forall i :: 0 <= i < |a.kids| ==>
              IsVoltage(values.elements[i]) && VoltageValue(values.elements[i]) == a.kids[Index(i)].kids[Field("value_")].v.r
  {
    hide Denotes;
    ElementNodes(values, a);
    hide Nodes, IsArray;
    forall i | 0 <= i < |values.elements|
      ensures IsVoltage(values.elements[i]) && values.elements[i].s == a.kids[Index(i)].id
      ensures VoltageValue(values.elements[i]) == a.kids[Index(i)].kids[Field("value_")].v.r
    {
      LeafField(true, values.elements[i], a.kids[Index(i)], "value_");
    }
  }

  lemma PointView(p: StructInstance, g: Graph)
    requires Denotes(true, StructV(p), g) && IsPointGraph(g)
    ensures HasMap(p, POINT_MAP)
    ensures HoldsGates(Keys(p, POINT_MAP), ElementStructs(Keys(p, POINT_MAP).elements), KeysOf(g), PointVecOf(g))
    ensures HoldsNodes(Values(p, POINT_MAP), VoltagesOf(g))
    ensures |Values(p, POINT_MAP).elements| == |PointVecOf(g)|
    ensures forall i :: 0 <= i < |PointVecOf(g)| ==>
              IsVoltage(Values(p, POINT_MAP).elements[i]) &&
              VoltageValue(Values(p, POINT_MAP).elements[i]) == PointVecOf(g)[i].coeff
  {
    FieldNode(true, p, g, POINT_MAP);
    var m := StructField(p, POINT_MAP);
    ArrayNode(m, At(g, POINT_MAP), "keys_");
    ArrayNode(m, At(g, POINT_MAP), "values_");
    GatesView(Keys(p, POINT_MAP), KeysOf(g), PointVecOf(g));
    VoltagesView(Values(p, POINT_MAP), VoltagesOf(g));
    hide Denotes, Nodes, HoldsGates, IsArray;
  }
}
