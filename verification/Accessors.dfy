/** How directions and points read the runtime graph: a struct field that holds a Map,
    whose two Array structs hold the gates and the numbers in parallel. */
module Accessors {
  import opened RuntimeGraph
  import opened SparseVector

  const DIRECTION_MAP := "dir_"
  const POINT_MAP := "location_"

  predicate HasStruct(o: StructInstance, field: string)
    reads o
  {
    field in o.fields && o.fields[field].StructV? && o.fields[field].s != null
  }

  function StructField(o: StructInstance, field: string): StructInstance
    requires HasStruct(o, field)
    reads o
  {
    o.fields[field].s
  }

  /** The struct in a field, as a set, for the reads clauses below. */
  ghost function Below(o: StructInstance, field: string): set<StructInstance>
    reads o
  {
    if HasStruct(o, field) then {StructField(o, field)} else {}
  }

  predicate HasArray(o: StructInstance, field: string)
    reads o, Below(o, field)
  {
    HasStruct(o, field) && StructField(o, field).nativeHandle.ArrayHandle? && StructField(o, field).nativeHandle.arr != null
  }

  function ArrayField(o: StructInstance, field: string): ArrayValue
    requires HasArray(o, field)
    reads o, Below(o, field)
  {
    StructField(o, field).nativeHandle.arr
  }

  /** The struct nodes that lead from o to the arrays of the map in its field. */
  ghost function Spine(o: StructInstance, field: string): set<StructInstance>
    reads o, Below(o, field)
  {
    {o} + Below(o, field) +
    if HasStruct(o, field) then Below(StructField(o, field), "keys_") + Below(StructField(o, field), "values_") else {}
  }

  predicate HasMap(o: StructInstance, field: string)
    reads o, Below(o, field), Spine(o, field)
  {
    HasStruct(o, field) && HasArray(StructField(o, field), "keys_") && HasArray(StructField(o, field), "values_")
  }

  function Keys(o: StructInstance, field: string): ArrayValue
    requires HasMap(o, field)
    reads o, Below(o, field), Spine(o, field)
  {
    ArrayField(StructField(o, field), "keys_")
  }

  function Values(o: StructInstance, field: string): ArrayValue
    requires HasMap(o, field)
    reads o, Below(o, field), Spine(o, field)
  {
    ArrayField(StructField(o, field), "values_")
  }

  // ---------------------------------------------------------------------------
  // Gates and voltages
  // ---------------------------------------------------------------------------

  /** The struct a value points to, as a set. */
  ghost function Target(v: RuntimeValue): set<StructInstance> {
    if v.StructV? && v.s != null then {v.s} else {}
  }

  /** A gate is a struct with a text name; two gates are equal when their names are. */
  predicate IsGate(v: RuntimeValue)
    reads Target(v)
  {
    v.StructV? && v.s != null && "name_" in v.s.fields && v.s.fields["name_"].TextV?
  }

  function GateName(v: RuntimeValue): string
    requires IsGate(v)
    reads Target(v)
  {
    v.s.fields["name_"].t
  }

  /** A voltage is a struct with a real value. */
  predicate IsVoltage(v: RuntimeValue)
    reads Target(v)
  {
    v.StructV? && v.s != null && "value_" in v.s.fields && v.s.fields["value_"].RealV?
  }

  function VoltageValue(v: RuntimeValue): real
    requires IsVoltage(v)
    reads Target(v)
  {
    v.s.fields["value_"].r
  }

  // ---------------------------------------------------------------------------
  // Directions
  // ---------------------------------------------------------------------------

  /** The objects behind a direction: its two arrays, and every struct on the way to them
      or among their elements. */
  datatype Layout = Layout(structs: set<StructInstance>, keys: ArrayValue, values: ArrayValue)

  /** o's field holds a map, whose arrays are the layout's. */
  ghost predicate Leads(o: StructInstance, field: string, l: Layout)
    reads l.structs
  {
    && o in l.structs && Below(o, field) <= l.structs && Spine(o, field) <= l.structs
    && HasMap(o, field) && Keys(o, field) == l.keys && Values(o, field) == l.values
  }

  ghost predicate Gates(es: seq<RuntimeValue>, structs: set<StructInstance>)
    reads structs
  {
    forall i :: 0 <= i < |es| ==> Target(es[i]) <= structs && IsGate(es[i])
  }

  ghost predicate Voltages(es: seq<RuntimeValue>, structs: set<StructInstance>)
    reads structs
  {
    forall i :: 0 <= i < |es| ==> Target(es[i]) <= structs && IsVoltage(es[i])
  }

  ghost predicate Reals(es: seq<RuntimeValue>) {
    forall i :: 0 <= i < |es| ==> es[i].RealV?
  }

  ghost function Names(es: seq<RuntimeValue>, structs: set<StructInstance>): (names: seq<string>)
    requires Gates(es, structs)
    reads structs
    ensures |names| == |es| && forall i :: 0 <= i < |es| ==> names[i] == GateName(es[i])
  {
    if es == [] then [] else Names(es[..|es| - 1], structs) + [GateName(es[|es| - 1])]
  }

  ghost function Coefficients(es: seq<RuntimeValue>): (coeffs: seq<real>)
    requires Reals(es)
    ensures |coeffs| == |es| && forall i :: 0 <= i < |es| ==> coeffs[i] == es[i].r
  {
    seq(|es|, i requires 0 <= i < |es| && es[i].RealV? => es[i].r)
  }

  ghost function Zip(names: seq<string>, coeffs: seq<real>): (v: Vec)
    requires |names| == |coeffs|
    ensures |v| == |names|
  {
    seq(|names|, i requires 0 <= i < |names| && |names| == |coeffs| => Entry(names[i], coeffs[i]))
  }

  /** Parallel arrays of gates and reals. */
  ghost predicate GateReals(l: Layout)
    reads l.structs, l.keys, l.values
  {
    && l.keys != l.values && |l.keys.elements| == |l.values.elements|
    && Gates(l.keys.elements, l.structs) && Reals(l.values.elements)
  }

  ghost predicate IsDirection(d: StructInstance, l: Layout)
    reads l.structs, l.keys, l.values
  {
    Leads(d, DIRECTION_MAP, l) && GateReals(l)
  }

  /** The vector that parallel elements of gates and reals stand for. */
  ghost function VecOf(keys: seq<RuntimeValue>, values: seq<RuntimeValue>, structs: set<StructInstance>): (v: Vec)
    requires |keys| == |values| && Gates(keys, structs) && Reals(values)
    reads structs
    ensures |v| == |keys| && forall i :: 0 <= i < |v| ==> v[i] == Entry(GateName(keys[i]), values[i].r)
  {
    Zip(Names(keys, structs), Coefficients(values))
  }

  /** The vector that a direction's arrays stand for. */
  ghost function DirectionVec(l: Layout): Vec
    requires GateReals(l)
    reads l.structs, l.keys, l.values
  {
    VecOf(l.keys.elements, l.values.elements, l.structs)
  }

  /** The search loop that directions and axes share: the first position of a gate. */
  method FindGate(keys: ArrayValue, gate: RuntimeValue, ghost name: string, ghost v: Vec, ghost structs: set<StructInstance>)
      returns (j: nat)
    requires Gates(keys.elements, structs) && IsGate(gate) && GateName(gate) == name
    requires |v| == |keys.elements| && forall i :: 0 <= i < |v| ==> v[i].gate == GateName(keys.elements[i])
    ensures j == IndexOf(v, name)
  {
    for i := 0 to |keys.elements|
      invariant forall k :: 0 <= k < i ==> v[k].gate != name
    {
      if GateName(keys.elements[i]) == GateName(gate) {
        IndexOfIs(v, name, i);
        return i;
      }
    }
    IndexOfIs(v, name, |v|);
    return |keys.elements|;
  }

  // ---------------------------------------------------------------------------
  // What a clone keeps
  // ---------------------------------------------------------------------------

  lemma SameKids(g: Graph, h: Graph)
    requires Erase(g) == Erase(h) && g.Node?
    ensures h.Node? && g.tag == h.tag && g.kids.Keys == h.kids.Keys
    ensures forall st :: st in g.kids ==> Erase(g.kids[st]) == Erase(h.kids[st])
  {
    var eg, eh := Erase(g), Erase(h);
    assert h.Node?;
    assert eg.kids.Keys == g.kids.Keys && eh.kids.Keys == h.kids.Keys;
    forall st | st in g.kids
      ensures Erase(g.kids[st]) == Erase(h.kids[st])
    {
      assert eg.kids[st] == Erase(g.kids[st]) && eh.kids[st] == Erase(h.kids[st]);
    }
  }

  /** Structs of equal value hold structs of equal value in the same field. */
  lemma SameStructField(deep: bool, a: StructInstance, g: Graph, b: StructInstance, h: Graph, field: string)
    requires Denotes(deep, StructV(a), g) && Denotes(deep, StructV(b), h) && Erase(g) == Erase(h)
    requires HasStruct(a, field)
    ensures HasStruct(b, field) && g.Node? && h.Node? && Field(field) in g.kids && Field(field) in h.kids
    ensures Denotes(deep, StructV(StructField(a, field)), g.kids[Field(field)])
    ensures Denotes(deep, StructV(StructField(b, field)), h.kids[Field(field)])
    ensures Erase(g.kids[Field(field)]) == Erase(h.kids[Field(field)])
    ensures StructField(b, field) in Nodes(h) && Nodes(h.kids[Field(field)]) <= Nodes(h)
  {
    hide Denotes, Erase, Nodes, KidsDenote, NativeKid, Named;
    var st, va, vb := Field(field), Named(a.fields) + NativeKid(deep, a), Named(b.fields) + NativeKid(deep, b);
    StructKids(deep, a, g);
    StructKids(deep, b, h);
    SameKids(g, h);
    NamedAt(a.fields, field);
    NamedAt(b.fields, field);
    KidsDenoteKeys(deep, va, g.kids, Nodes(g));
    KidsDenoteKeys(deep, vb, h.kids, Nodes(h));
    KidAt(deep, va, g.kids, Nodes(g), st);
    KidAt(deep, vb, h.kids, Nodes(h), st);
    StructKids(deep, StructField(a, field), g.kids[st]);
    SameKids(g.kids[st], h.kids[st]);
    TaggedStruct(deep, b.fields[field], h.kids[st]);
  }

  lemma TaggedStruct(deep: bool, v: RuntimeValue, g: Graph)
    requires Denotes(deep, v, g) && g.Node? && g.tag.StructTag?
    ensures v.StructV? && v.s != null && v.s in Nodes(g)
  {
  }
}
