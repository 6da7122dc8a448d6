/** Two directions on one array of values: what Add makes of them. */
module CrossedGates {
  import opened RuntimeGraph
  import opened SparseVector
  import opened Rounds
  import opened Accessors
  import opened AxisView
  import opened DirectionOps
  import opened DirectionView
  import opened ControlAxis

  lemma ShallowNode(v: RuntimeValue, kids: map<Step, Graph>)
    requires v.IsNode() && v.Id() != null && KidsOf(false, v).Keys == kids.Keys
    requires forall st :: st in kids ==> Denotes(false, KidsOf(false, v)[st], kids[st])
    ensures Denotes(false, v, Node(v.Id(), TagOf(false, v), kids))
  {
  }

  lemma ShallowStruct(s: StructInstance, fields: map<string, RuntimeValue>, kids: map<Step, Graph>) returns (g: Graph)
    requires s.fields == fields && Named(fields).Keys == kids.Keys
    requires forall st :: st in kids ==> Denotes(false, Named(fields)[st], kids[st])
    ensures Denotes(false, StructV(s), g)
  {
    hide Denotes, Named;
    assert KidsOf(false, StructV(s)) == Named(fields) + map[] == Named(fields);
    ShallowNode(StructV(s), kids);
    g := Node(s, TagOf(false, StructV(s)), kids);
  }

  lemma ShallowLeaf(s: StructInstance) returns (g: Graph)
    requires s.fields == map[]
    ensures Denotes(false, StructV(s), g)
  {
    NoKids(false, map[]);
    hide Denotes, Named;
    g := ShallowStruct(s, map[], map[]);
  }

  /** For the sharing clone a new direction unfolds to its four structs. */
  lemma ShallowDirection(p: Parts) returns (g: Graph)
    requires Assembled(p)
    ensures Denotes(false, StructV(p.direction), g)
  {
    hide Denotes;
    var ks := ShallowLeaf(p.keysStruct);
    var vs := ShallowLeaf(p.valuesStruct);
    var fields := map["keys_" := StructV(p.keysStruct), "values_" := StructV(p.valuesStruct)];
    var m := ShallowStruct(p.dir, fields, map[Field("keys_") := ks, Field("values_") := vs]);
    g := ShallowStruct(p.direction, map[DIRECTION_MAP := StructV(p.dir)], map[Field(DIRECTION_MAP) := m]);
  }

  method NewGate(name: string) returns (gate: RuntimeValue)
    ensures gate.StructV? && gate.s != null && fresh(gate.s) && IsGate(gate) && GateName(gate) == name
  {
    var s := new StructInstance("Gate");
    s.fields := s.fields["name_" := TextV(name)];
    gate := StructV(s);
  }

  /** The structs of a direction on two given arrays. */
  method Assemble(keys: ArrayValue, values: ArrayValue, ghost structs: set<StructInstance>)
      returns (d: StructInstance, ghost l: Layout, ghost p: Parts)
    ensures fresh(d) && Assembled(p) && p.direction == d
    ensures Leads(d, DIRECTION_MAP, l) && l.keys == keys && l.values == values && structs <= l.structs
    ensures fresh(l.structs - structs)
  {
    hide *;
    var ks := HandleStruct(keys);
    var vs := HandleStruct(values);
    var m := PlainStruct("Map", map["keys_" := StructV(ks), "values_" := StructV(vs)]);
    d := PlainStruct("Direction", map[DIRECTION_MAP := StructV(m)]);
    p := Parts(d, m, ks, vs, keys, values);
    l := Layout(PartStructs(p) + structs, keys, values);
    CloseParts(p);
    AssembledLeads(p, structs);
  }

  method HandleStruct(a: ArrayValue) returns (s: StructInstance)
    ensures fresh(s) && IsArrayStruct(s, a)
  {
    s := new StructInstance("Array");
    s.nativeHandle := ArrayHandle(a);
  }

  method PlainStruct(typeName: string, fields: map<string, RuntimeValue>) returns (s: StructInstance)
    ensures fresh(s) && IsPlainStruct(s, typeName, fields)
  {
    s := new StructInstance(typeName);
    s.fields := fields;
  }

  lemma CloseParts(p: Parts)
    requires IsPlainStruct(p.direction, "Direction", map[DIRECTION_MAP := StructV(p.dir)])
    requires IsPlainStruct(p.dir, "Map", map["keys_" := StructV(p.keysStruct), "values_" := StructV(p.valuesStruct)])
    requires IsArrayStruct(p.keysStruct, p.keys) && IsArrayStruct(p.valuesStruct, p.values)
    ensures Assembled(p) && PartStructs(p) == {p.direction, p.dir, p.keysStruct, p.valuesStruct}
  {
  }

  /** A direction on two given arrays. */
  method DirectionOn(keys: ArrayValue, values: ArrayValue, ghost structs: set<StructInstance>)
      returns (d: StructInstance, ghost l: Layout, ghost g: Graph)
    requires keys != values && |keys.elements| == |values.elements| && Gates(keys.elements, structs) && Reals(values.elements)
    ensures IsDirection(d, l) && l.keys == keys && l.values == values && Denotes(false, StructV(d), g)
    ensures DirectionVec(l) == VecOf(keys.elements, values.elements, structs)
    ensures fresh(l.structs - structs)
  {
    hide *;
    ghost var p;
    d, l, p := Assemble(keys, values, structs);
    CloseDirection(d, l, structs);
    g := ShallowDirection(p);
  }

  lemma TwoGates(a: RuntimeValue, b: RuntimeValue, x: real, y: real)
    requires IsGate(a) && IsGate(b)
    ensures var es, structs := [a, b], Target(a) + Target(b);
      && Gates(es, structs) && Reals([RealV(x), RealV(y)])
      && VecOf(es, [RealV(x), RealV(y)], structs) == [Entry(GateName(a), x), Entry(GateName(b), y)]
  {
    hide IsGate, GateName;
  }

  /** Two gates in opposite orders on the values 1, 2. */
  method CrossedPair() returns (d1: StructInstance, d2: StructInstance, a: RuntimeValue,
                                ghost l1: Layout, ghost l2: Layout, ghost g: Graph)
    ensures fresh(l1.keys) && fresh(l1.values)
    ensures IsDirection(d1, l1) && IsDirection(d2, l2) && l1.values == l2.values && Denotes(false, StructV(d1), g)
    ensures IsGate(a) && GateName(a) == "a"
    ensures DirectionVec(l1) == [Entry("a", 1.0), Entry("b", 2.0)] && DirectionVec(l2) == [Entry("b", 1.0), Entry("a", 2.0)]
  {
    hide *;
    a := NewGate("a");
    OneStruct(a);
    var b := NewGate("b");
    OneStruct(b);
    var keys, values := NewArrays([a, b], [RealV(1.0), RealV(2.0)]);
    var crossed, _ := NewArrays([b, a], []);
    TwoGates(a, b, 1.0, 2.0);
    TwoGates(b, a, 1.0, 2.0);
    ghost var g2;
    ghost var gates := Target(a) + Target(b);
    assert gates == Target(b) + Target(a);
    d1, l1, g := DirectionOn(keys, values, gates);
    NodesAllocated(g);
    d2, l2, g2 := DirectionOn(crossed, values, gates);
  }

  lemma OneStruct(v: RuntimeValue)
    requires v.StructV? && v.s != null
    ensures Target(v) == {v.s}
  {
  }

  lemma OneGate(v: RuntimeValue)
    requires IsGate(v)
    ensures v.StructV? && v.s != null && Target(v) == {v.s}
  {
  }

  method NewArrays(es: seq<RuntimeValue>, fs: seq<RuntimeValue>) returns (a: ArrayValue, b: ArrayValue)
    ensures fresh(a) && fresh(b) && a != b && a.elements == es && b.elements == fs
  {
    a := new ArrayValue();
    b := new ArrayValue();
    a.elements := es;
    b.elements := fs;
  }

  /** The coefficients 1 and 2 at gate a add up to 4, because Add has written 3 where it then
      reads 2. */
  method AddCrossedGates() returns (x: real, y: real, sum: real)
    ensures x == 1.0 && y == 2.0 && sum == 4.0
  {
    hide Denotes, Leads, GateReals, DirectionVec, AfterRounds, ReadsFirst;
    var d1, d2, a;
    ghost var l1, l2, g;
    d1, d2, a, l1, l2, g := CrossedPair();
    CrossedGatesMisadd();
    x, y, sum := Sums(d1, d2, a, l1, l2, g);
  }

  lemma SharedLength(l: Layout, m: Layout)
    requires GateReals(l) && GateReals(m)
    ensures l.values == m.values ==> |DirectionVec(m)| == |DirectionVec(l)|
  {
  }

  method Sums(d1: StructInstance, d2: StructInstance, a: RuntimeValue, ghost l1: Layout, ghost l2: Layout, ghost g: Graph)
      returns (x: real, y: real, sum: real)
    requires IsDirection(d1, l1) && IsDirection(d2, l2) && Denotes(false, StructV(d1), g) && IsGate(a)
    modifies l1.keys, l1.values
    ensures var v, w := old(DirectionVec(l1)), old(DirectionVec(l2));
      && x == Coeff(v, GateName(a)) && y == Coeff(w, GateName(a))
      && (l1.values == l2.values ==> |w| <= |v|)
      && sum == Coeff(AfterRounds(v, w, |w|, l1.values == l2.values, false), GateName(a))
  {
    hide *;
    OpenDirection(d1, l1);
    OpenDirection(d2, l2);
    OneGate(a);
    SharedLength(l1, l2);
    NodesAllocated(g);
    var found, r;
    ghost var l;
    x, found := DirectionOps.CoefficientAt(d1, a, l1);
    y, found := DirectionOps.CoefficientAt(d2, a, l2);
    r, l := AddDirections(d1, d2, g, l1, l2);
    sum, found := DirectionOps.CoefficientAt(r, a, l);
  }
}
