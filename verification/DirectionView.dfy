/** Directions as parts of an axis that is cloned in depth: the shape of their unfolding, and
    what the heap holds where a value unfolds to it. */
module DirectionView {
  import opened RuntimeGraph
  import opened SparseVector
  import opened Accessors
  import opened AxisGraph
  import opened AxisView

  ghost predicate IsRealLeaf(g: Graph) {
    g.Leaf? && g.v.RealV?
  }

  ghost predicate HasArrays(g: Graph) {
    && StructAt(g, DIRECTION_MAP)
    && ArrayAt(At(g, DIRECTION_MAP), "keys_") && ArrayAt(At(g, DIRECTION_MAP), "values_")
  }

  ghost function GatesIn(g: Graph): (a: Graph)
    requires HasArrays(g)
    ensures IsArray(a)
  {
    ArrayOf(At(g, DIRECTION_MAP), "keys_")
  }

  ghost function RealsIn(g: Graph): (a: Graph)
    requires HasArrays(g)
    ensures IsArray(a)
  {
    ArrayOf(At(g, DIRECTION_MAP), "values_")
  }

  ghost predicate IsDirectionGraph(g: Graph) {
    && HasArrays(g) && |GatesIn(g).kids| == |RealsIn(g).kids|
    && (forall i: nat :: i < |GatesIn(g).kids| ==> IsGateGraph(GatesIn(g).kids[Index(i)]))
    && forall i: nat :: i < |RealsIn(g).kids| ==> IsRealLeaf(RealsIn(g).kids[Index(i)])
  }

  /** The i-th gate of a direction, with the i-th coefficient. */
  ghost function DirectionEntry(g: Graph, i: nat): Entry
    requires IsDirectionGraph(g) && i < |GatesIn(g).kids|
  {
    Entry(GatesIn(g).kids[Index(i)].kids[Field("name_")].v.t, RealsIn(g).kids[Index(i)].v.r)
  }

  ghost function DirectionPrefix(g: Graph, n: nat): (v: Vec)
    requires IsDirectionGraph(g) && n <= |GatesIn(g).kids|
    ensures |v| == n && forall i :: 0 <= i < |v| ==> v[i] == DirectionEntry(g, i)
  {
    if n == 0 then [] else DirectionPrefix(g, n - 1) + [DirectionEntry(g, n - 1)]
  }

  /** The vector that a direction stands for. */
  ghost function DirectionVecOf(g: Graph): (v: Vec)
    requires IsDirectionGraph(g)
    ensures |v| == |GatesIn(g).kids| && forall i :: 0 <= i < |v| ==> v[i] == DirectionEntry(g, i)
  {
    DirectionPrefix(g, |GatesIn(g).kids|)
  }

  /** An axis whose direction_ field unfolds to a direction as well. */
  ghost predicate IsWholeAxis(g: Graph) {
    IsAxisGraph(g) && StructAt(g, "direction_") && IsDirectionGraph(At(g, "direction_"))
  }

  ghost function DirVecOf(g: Graph): Vec
    requires IsWholeAxis(g)
  {
    DirectionVecOf(At(g, "direction_"))
  }

  lemma SameArrays(g: Graph, h: Graph)
    requires Erase(g) == Erase(h) && HasArrays(g)
    ensures HasArrays(h)
    ensures Erase(GatesIn(g)) == Erase(GatesIn(h)) && |GatesIn(g).kids| == |GatesIn(h).kids|
    ensures Erase(RealsIn(g)) == Erase(RealsIn(h)) && |RealsIn(g).kids| == |RealsIn(h).kids|
  {
    hide Erase;
    SameStructAt(g, h, DIRECTION_MAP);
    SameArrayAt(At(g, DIRECTION_MAP), At(h, DIRECTION_MAP), "keys_");
    SameArrayAt(At(g, DIRECTION_MAP), At(h, DIRECTION_MAP), "values_");
  }

  lemma SameElements(a: Graph, b: Graph)
    requires Erase(a) == Erase(b) && IsArray(a) && IsArray(b) && |a.kids| == |b.kids|
    ensures forall i: nat :: i < |a.kids| ==> Erase(a.kids[Index(i)]) == Erase(b.kids[Index(i)])
  {
    hide Erase;
    SameKids(a, b);
  }

  /** Graphs of equal value are directions together and stand for the same vector. */
  lemma SameDirection(g: Graph, h: Graph)
    requires Erase(g) == Erase(h) && IsDirectionGraph(g)
    ensures IsDirectionGraph(h) && DirectionVecOf(h) == DirectionVecOf(g)
  {
    SameArrays(g, h);
    SameElements(GatesIn(g), GatesIn(h));
    SameElements(RealsIn(g), RealsIn(h));
    forall i: nat | i < |GatesIn(h).kids|
      ensures SameEntry(GatesIn(g), RealsIn(g), GatesIn(h), RealsIn(h), i)
    {
      SameLeaf(GatesIn(g).kids[Index(i)], GatesIn(h).kids[Index(i)], "name_");
      SameScalar(RealsIn(g).kids[Index(i)], RealsIn(h).kids[Index(i)]);
    }
    hide *;
    SameEntries(g, h);
  }

  ghost predicate SameEntry(k: Graph, r: Graph, k': Graph, r': Graph, i: nat)
    requires k.Node? && r.Node? && k'.Node? && r'.Node?
  {
    && Index(i) in k.kids && Index(i) in k'.kids && Index(i) in r.kids && Index(i) in r'.kids
    && IsGateGraph(k.kids[Index(i)]) && IsGateGraph(k'.kids[Index(i)])
    && k'.kids[Index(i)].kids[Field("name_")] == k.kids[Index(i)].kids[Field("name_")]
    && r'.kids[Index(i)] == r.kids[Index(i)]
  }

  lemma SameEntries(g: Graph, h: Graph)
    requires IsDirectionGraph(g) && HasArrays(h)
    requires |GatesIn(h).kids| == |GatesIn(g).kids| && |RealsIn(h).kids| == |RealsIn(g).kids|
    requires forall i: nat :: i < |GatesIn(h).kids| ==> SameEntry(GatesIn(g), RealsIn(g), GatesIn(h), RealsIn(h), i)
    ensures IsDirectionGraph(h) && DirectionVecOf(h) == DirectionVecOf(g)
  {
    hide HasArrays, GatesIn, RealsIn;
    forall i: nat | i < |GatesIn(h).kids|
      ensures IsGateGraph(GatesIn(h).kids[Index(i)]) && IsRealLeaf(RealsIn(h).kids[Index(i)])
    {
      assert SameEntry(GatesIn(g), RealsIn(g), GatesIn(h), RealsIn(h), i);
    }
    assert IsDirectionGraph(h);
    forall i: nat | i < |GatesIn(h).kids|
      ensures DirectionVecOf(h)[i] == DirectionVecOf(g)[i]
    {
      assert SameEntry(GatesIn(g), RealsIn(g), GatesIn(h), RealsIn(h), i);
    }
  }

  lemma SameScalar(g: Graph, h: Graph)
    requires Erase(g) == Erase(h) && g.Leaf?
    ensures h == g
  {
  }

  /** The layout of a direction in the heap. */
  ghost function LayoutOf(d: StructInstance): Layout
    requires HasMap(d, DIRECTION_MAP)
    reads d, Accessors.Below(d, DIRECTION_MAP), Spine(d, DIRECTION_MAP), Keys(d, DIRECTION_MAP)
  {
    var keys := Keys(d, DIRECTION_MAP);
    Layout(Spine(d, DIRECTION_MAP) + ElementStructs(keys.elements), keys, Values(d, DIRECTION_MAP))
  }

  lemma RealElements(values: ArrayValue, k: Graph, v: Vec)
    requires Denotes(true, ArrayV(values), k) && IsArray(k) && |v| == |k.kids|
    requires forall i: nat :: i < |k.kids| ==> IsRealLeaf(k.kids[Index(i)]) && k.kids[Index(i)].v.r == v[i].coeff
    ensures |values.elements| == |v| && forall i :: 0 <= i < |v| ==> values.elements[i] == RealV(v[i].coeff)
  {
    ElementNodes(values, k);
    hide Nodes, IsArray;
  }

  lemma DirectionArraysNode(d: StructInstance, g: Graph)
    requires Denotes(true, StructV(d), g) && HasArrays(g)
    ensures HasMap(d, DIRECTION_MAP)
    ensures Denotes(true, ArrayV(Keys(d, DIRECTION_MAP)), GatesIn(g)) && Keys(d, DIRECTION_MAP) == GatesIn(g).id
    ensures Denotes(true, ArrayV(Values(d, DIRECTION_MAP)), RealsIn(g)) && Values(d, DIRECTION_MAP) == RealsIn(g).id
  {
    FieldNode(true, d, g, DIRECTION_MAP);
    ArrayNode(StructField(d, DIRECTION_MAP), At(g, DIRECTION_MAP), "keys_");
    ArrayNode(StructField(d, DIRECTION_MAP), At(g, DIRECTION_MAP), "values_");
    hide Denotes, Nodes, IsArray;
  }

  lemma AssembleDirection(d: StructInstance, k: Graph, v: Vec)
    requires HasMap(d, DIRECTION_MAP) && Keys(d, DIRECTION_MAP) != Values(d, DIRECTION_MAP)
    requires HoldsGates(Keys(d, DIRECTION_MAP), ElementStructs(Keys(d, DIRECTION_MAP).elements), k, v)
    requires var es := Values(d, DIRECTION_MAP).elements; |es| == |v| && forall i :: 0 <= i < |v| ==> es[i] == RealV(v[i].coeff)
    ensures IsDirection(d, LayoutOf(d)) && DirectionVec(LayoutOf(d)) == v
  {
    hide Nodes;
  }

  /** What the heap holds where a value unfolds to a direction with two arrays. */
  lemma DirectionHere(d: StructInstance, g: Graph)
    requires Denotes(true, StructV(d), g) && IsDirectionGraph(g) && GatesIn(g).id != RealsIn(g).id
    ensures HasMap(d, DIRECTION_MAP)
    ensures IsDirection(d, LayoutOf(d)) && DirectionVec(LayoutOf(d)) == DirectionVecOf(g)
  {
    DirectionArraysNode(d, g);
    GatesView(Keys(d, DIRECTION_MAP), GatesIn(g), DirectionVecOf(g));
    RealElements(Values(d, DIRECTION_MAP), RealsIn(g), DirectionVecOf(g));
    hide *;
    AssembleDirection(d, GatesIn(g), DirectionVecOf(g));
  }

  /** The two arrays of an unshared direction are different nodes. */
  lemma ArraysApart(g: Graph)
    requires HasArrays(g) && Separated(g) && GatesIn(g).id != null && GatesIn(g).id in Nodes(GatesIn(g))
    ensures GatesIn(g).id != RealsIn(g).id
  {
    var m := At(g, DIRECTION_MAP);
    assert Nodes(m.kids[Field("keys_")]) !! Nodes(m.kids[Field("values_")]);
    assert GatesIn(g).id in Nodes(At(m, "keys_"));
    assert RealsIn(g).id != null ==> RealsIn(g).id in Nodes(RealsIn(g)) && RealsIn(g).id in Nodes(At(m, "values_"));
  }

  // ---------------------------------------------------------------------------
  // A direction built from new nodes
  // ---------------------------------------------------------------------------

  lemma NodeDenotes(v: RuntimeValue, kids: map<Step, Graph>)
    requires v.IsNode() && v.Id() != null && WellTyped(true, v) && KidsOf(true, v).Keys == kids.Keys
    requires forall st :: st in kids ==> Denotes(true, KidsOf(true, v)[st], kids[st])
    ensures Denotes(true, v, Node(v.Id(), TagOf(true, v), kids))
  {
  }

  /** A struct of type Array without fields, on array a. */
  ghost predicate IsArrayStruct(s: StructInstance, a: ArrayValue)
    reads s
  {
    s.typeName == "Array" && s.fields == map[] && s.nativeHandle == ArrayHandle(a)
  }

  ghost predicate IsPlainStruct(s: StructInstance, typeName: string, fields: map<string, RuntimeValue>)
    reads s
  {
    s.typeName == typeName && s.fields == fields && s.nativeHandle == NoHandle
  }

  lemma ArrayStructCopies(s: StructInstance, a: ArrayValue)
    requires IsArrayStruct(s, a)
    ensures CopiesHandle(true, s) && s.fields == map[] && s.nativeHandle == ArrayHandle(a)
  {
  }

  lemma ArrayStructKids(s: StructInstance, a: ArrayValue)
    requires CopiesHandle(true, s) && s.fields == map[] && s.nativeHandle == ArrayHandle(a)
    ensures WellTyped(true, StructV(s)) && KidsOf(true, StructV(s)) == map[Native := ArrayV(a)]
  {
    NoKids(true, map[]);
    hide CopiesHandle, Named, Indexed;
    var none: map<Step, RuntimeValue> := map[];
    assert KidsOf(true, StructV(s)) == none + map[Native := ArrayV(a)];
    JustOne(none, Native, ArrayV(a));
  }

  lemma JustOne(none: map<Step, RuntimeValue>, st: Step, v: RuntimeValue)
    requires none == map[]
    ensures none + map[st := v] == map[st := v]
  {
  }

  lemma ArrayStructGraph(s: StructInstance, a: ArrayValue, k: Graph) returns (g: Graph)
    requires IsArrayStruct(s, a) && Denotes(true, ArrayV(a), k) && IsArray(k)
    ensures Denotes(true, StructV(s), g) && g.Node? && g.id == s && g.tag.StructTag? && g.kids == map[Native := k]
  {
    hide Denotes, IsArray, IsArrayStruct, CopiesHandle, KidsOf, WellTyped;
    ArrayStructCopies(s, a);
    ArrayStructKids(s, a);
    NodeDenotes(StructV(s), map[Native := k]);
    g := Node(s, TagOf(true, StructV(s)), map[Native := k]);
  }

  lemma PlainStructGraph(s: StructInstance, typeName: string, fields: map<string, RuntimeValue>, kids: map<Step, Graph>)
      returns (g: Graph)
    requires IsPlainStruct(s, typeName, fields) && Named(fields).Keys == kids.Keys
    requires forall st :: st in kids ==> Denotes(true, Named(fields)[st], kids[st])
    ensures Denotes(true, StructV(s), g) && g.Node? && g.id == s && g.tag == StructTag(typeName, NoHandle) && g.kids == kids
  {
    hide Denotes, Named;
    assert KidsOf(true, StructV(s)) == Named(fields) + map[] == Named(fields);
    NodeDenotes(StructV(s), kids);
    g := Node(s, TagOf(true, StructV(s)), kids);
  }

  lemma OneKidNodes(g: Graph, st: Step, k: Graph)
    requires g.Node? && g.kids == map[st := k]
    ensures forall o :: o in Nodes(g) ==> o == g.id || o in Nodes(k)
  {
  }

  lemma TwoKidNodes(g: Graph, a: Step, k: Graph, b: Step, r: Graph)
    requires g.Node? && a != b && g.kids == map[a := k, b := r]
    ensures forall o :: o in Nodes(g) ==> o == g.id || o in Nodes(k) || o in Nodes(r)
  {
  }

  /** The same elements in another array. */
  lemma ArrayGraph(a: ArrayValue, es: seq<RuntimeValue>, kids: map<Step, Graph>) returns (g: Graph)
    requires a.elements == es && kids.Keys == Indexed(es).Keys
    requires forall st :: st in kids ==> Denotes(true, Indexed(es)[st], kids[st])
    ensures Denotes(true, ArrayV(a), g) && g.Node? && g.tag.ArrayTag? && g.kids == kids && g.id == a
  {
    hide Denotes, Indexed;
    NodeDenotes(ArrayV(a), kids);
    g := Node(a, TagOf(true, ArrayV(a)), kids);
  }

  lemma GateArray(keys: ArrayValue, source: ArrayValue, k: Graph) returns (g: Graph)
    requires Denotes(true, ArrayV(source), k) && IsArray(k) && keys.elements == source.elements
    ensures Denotes(true, ArrayV(keys), g) && IsArray(g) && g.kids == k.kids && g.id == keys
    ensures forall o :: o in Nodes(g) ==> o == keys || o in Nodes(k)
  {
    KidsOfDenote(true, ArrayV(source), k);
    SameKidsNodes(k, keys);
    hide Denotes, Nodes;
    g := ArrayGraph(keys, source.elements, k.kids);
    SameKidsNodes(k, g.id);
    assert g == Node(g.id, g.tag, k.kids);
  }

  lemma SameKidsNodes(k: Graph, id: object?)
    requires k.Node?
    ensures forall tag, o :: o in Nodes(Node(id, tag, k.kids)) ==> o == id || o in Nodes(k)
  {
  }

  function Leaves(es: seq<RuntimeValue>): (kids: map<Step, Graph>)
    ensures kids.Keys == set i: nat | i < |es| :: Index(i)
    ensures forall i :: 0 <= i < |es| ==> kids[Index(i)] == Leaf(es[i])
  {
    map i | 0 <= i < |es| :: Index(i) := Leaf(es[i])
  }

  lemma RealArray(values: ArrayValue) returns (g: Graph)
    requires Reals(values.elements)
    ensures Denotes(true, ArrayV(values), g) && IsArray(g) && |g.kids| == |values.elements| && g.id == values
    ensures forall i :: 0 <= i < |values.elements| ==> g.kids[Index(i)] == Leaf(values.elements[i])
    ensures Nodes(g) <= {values}
  {
    var es := values.elements;
    var kids := Leaves(es);
    CountIndices(|es|);
    assert |kids| == |kids.Keys|;
    forall st | st in kids
      ensures Denotes(true, Indexed(es)[st], kids[st])
    {
      IndexedAt(es, st.i);
    }
    hide Denotes, Leaves;
    g := ArrayGraph(values, es, kids);
    assert forall st :: st in kids ==> Nodes(kids[st]) == {};
  }

  /** The four structs and two arrays of a new direction. */
  datatype Parts = Parts(direction: StructInstance, dir: StructInstance, keysStruct: StructInstance, valuesStruct: StructInstance,
                         keys: ArrayValue, values: ArrayValue)

  ghost predicate Assembled(p: Parts)
    reads p.direction, p.dir, p.keysStruct, p.valuesStruct
  {
    && IsPlainStruct(p.direction, "Direction", map[DIRECTION_MAP := StructV(p.dir)])
    && IsPlainStruct(p.dir, "Map", map["keys_" := StructV(p.keysStruct), "values_" := StructV(p.valuesStruct)])
    && IsArrayStruct(p.keysStruct, p.keys) && IsArrayStruct(p.valuesStruct, p.values)
  }

  ghost function PartStructs(p: Parts): set<StructInstance> {
    {p.direction, p.dir, p.keysStruct, p.valuesStruct}
  }

  /** Such a direction leads to its arrays. */
  lemma AssembledLeads(p: Parts, structs: set<StructInstance>)
    requires Assembled(p)
    ensures Leads(p.direction, DIRECTION_MAP, Layout(PartStructs(p) + structs, p.keys, p.values))
    ensures Spine(p.direction, DIRECTION_MAP) <= PartStructs(p)
  {
  }

  /** Such a direction unfolds. */
  lemma AssembledGraph(p: Parts, k: Graph, r: Graph) returns (g: Graph)
    requires Assembled(p) && Denotes(true, ArrayV(p.keys), k) && IsArray(k) && Denotes(true, ArrayV(p.values), r) && IsArray(r)
    ensures Denotes(true, StructV(p.direction), g) && HasArrays(g) && GatesIn(g) == k && RealsIn(g) == r
    ensures forall o :: o in Nodes(g) ==>
              o in {p.direction, p.dir, p.keysStruct, p.valuesStruct} || o in Nodes(k) || o in Nodes(r)
  {
    hide Denotes, IsArray, Nodes;
    var ks := ArrayStructGraph(p.keysStruct, p.keys, k);
    var vs := ArrayStructGraph(p.valuesStruct, p.values, r);
    var fields := map["keys_" := StructV(p.keysStruct), "values_" := StructV(p.valuesStruct)];
    var m := PlainStructGraph(p.dir, "Map", fields, map[Field("keys_") := ks, Field("values_") := vs]);
    g := PlainStructGraph(p.direction, "Direction", map[DIRECTION_MAP := StructV(p.dir)], map[Field(DIRECTION_MAP) := m]);
    OneKidNodes(ks, Native, k);
    OneKidNodes(vs, Native, r);
    TwoKidNodes(m, Field("keys_"), ks, Field("values_"), vs);
    OneKidNodes(g, Field(DIRECTION_MAP), m);
  }

  /** It is a direction when the arrays hold gates and reals. */
  lemma DirectionGraphIs(g: Graph, v: Vec)
    requires HasArrays(g) && |GatesIn(g).kids| == |RealsIn(g).kids| == |v|
    requires forall i: nat :: i < |v| ==>
               IsGateGraph(GatesIn(g).kids[Index(i)]) && GatesIn(g).kids[Index(i)].kids[Field("name_")].v.t == v[i].gate
    requires forall i: nat :: i < |v| ==> RealsIn(g).kids[Index(i)] == Leaf(RealV(v[i].coeff))
    ensures IsDirectionGraph(g) && DirectionVecOf(g) == v
  {
    hide HasArrays, IsGateGraph;
  }
}
