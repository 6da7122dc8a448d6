/** The shapes of points and control axes as unfolded graphs, and the vectors they stand
    for.  Nothing here reads the heap. */
module AxisGraph {
  import opened RuntimeGraph
  import opened SparseVector
  import opened Accessors

  /** The path from a point to the array of its voltages. */
  const VALUES_PATH: seq<Step> := [Field(POINT_MAP), Field("values_"), Native]

  /** The path from an axis to the array of its offset's voltages. */
  const OFFSETS_PATH: seq<Step> := [Field("offset_"), Field(POINT_MAP), Field("values_"), Native]

  ghost predicate StructAt(g: Graph, f: string) {
    && g.Node? && g.tag.StructTag? && Field(f) in g.kids
    && g.kids[Field(f)].Node? && g.kids[Field(f)].tag.StructTag?
  }

  ghost function At(g: Graph, f: string): Graph
    requires StructAt(g, f)
  {
    g.kids[Field(f)]
  }

  /** Field f holds an Array struct whose native storage the clone copies. */
  ghost predicate ArrayAt(g: Graph, f: string) {
    StructAt(g, f) && Native in At(g, f).kids && IsArray(At(g, f).kids[Native])
  }

  ghost predicate IsArray(a: Graph) {
    && a.Node? && a.tag.ArrayTag?
    && (forall st :: st in a.kids ==> st.Index? && st.i < |a.kids|)
    && forall i: nat :: i < |a.kids| ==> Index(i) in a.kids
  }

  ghost function ArrayOf(g: Graph, f: string): (a: Graph)
    requires ArrayAt(g, f)
    ensures IsArray(a)
  {
    At(g, f).kids[Native]
  }

  ghost predicate IsGateGraph(g: Graph) {
    && g.Node? && g.tag.StructTag? && Field("name_") in g.kids
    && g.kids[Field("name_")].Leaf? && g.kids[Field("name_")].v.TextV?
  }

  ghost predicate IsVoltageGraph(g: Graph) {
    && g.Node? && g.tag.StructTag? && Field("value_") in g.kids
    && g.kids[Field("value_")].Leaf? && g.kids[Field("value_")].v.RealV?
  }

  ghost predicate IsPointGraph(g: Graph) {
    && StructAt(g, POINT_MAP) && ArrayAt(At(g, POINT_MAP), "keys_") && ArrayAt(At(g, POINT_MAP), "values_")
    && |KeysOf(g).kids| == |VoltagesOf(g).kids|
    && (forall i: nat :: i < |KeysOf(g).kids| ==> IsGateGraph(KeysOf(g).kids[Index(i)]))
    && forall i: nat :: i < |VoltagesOf(g).kids| ==> IsVoltageGraph(VoltagesOf(g).kids[Index(i)])
  }

  ghost function KeysOf(g: Graph): (a: Graph)
    requires StructAt(g, POINT_MAP) && ArrayAt(At(g, POINT_MAP), "keys_")
    ensures IsArray(a)
  {
    ArrayOf(At(g, POINT_MAP), "keys_")
  }

  ghost function VoltagesOf(g: Graph): (a: Graph)
    requires StructAt(g, POINT_MAP) && ArrayAt(At(g, POINT_MAP), "values_")
    ensures IsArray(a)
  {
    ArrayOf(At(g, POINT_MAP), "values_")
  }

  /** The i-th gate of a point, with the i-th voltage. */
  ghost function PointEntry(g: Graph, i: nat): Entry
    requires IsPointGraph(g) && i < |KeysOf(g).kids|
  {
    Entry(KeysOf(g).kids[Index(i)].kids[Field("name_")].v.t, VoltagesOf(g).kids[Index(i)].kids[Field("value_")].v.r)
  }

  /** The vector that a point stands for: its gates with their voltages. */
  ghost function PointVecOf(g: Graph): (v: Vec)
    requires IsPointGraph(g)
    ensures |v| == |KeysOf(g).kids| && forall i :: 0 <= i < |v| ==> v[i] == PointEntry(g, i)
  {
    PointPrefix(g, |KeysOf(g).kids|)
  }

  ghost function PointPrefix(g: Graph, n: nat): (v: Vec)
    requires IsPointGraph(g) && n <= |KeysOf(g).kids|
    ensures |v| == n && forall i :: 0 <= i < |v| ==> v[i] == PointEntry(g, i)
  {
    if n == 0 then [] else PointPrefix(g, n - 1) + [PointEntry(g, n - 1)]
  }

  ghost predicate IsAxisGraph(g: Graph) {
    StructAt(g, "offset_") && IsPointGraph(At(g, "offset_"))
  }

  ghost function OffsetVecOf(g: Graph): Vec
    requires IsAxisGraph(g)
  {
    PointVecOf(At(g, "offset_"))
  }

  // ---------------------------------------------------------------------------
  // Graphs of equal value
  // ---------------------------------------------------------------------------

  lemma SameStructAt(g: Graph, h: Graph, f: string)
    requires Erase(g) == Erase(h) && StructAt(g, f)
    ensures StructAt(h, f) && Erase(At(g, f)) == Erase(At(h, f))
  {
    SameKids(g, h);
    SameKids(g.kids[Field(f)], h.kids[Field(f)]);
  }

  lemma SameArrayAt(g: Graph, h: Graph, f: string)
    requires Erase(g) == Erase(h) && ArrayAt(g, f)
    ensures ArrayAt(h, f) && Erase(ArrayOf(g, f)) == Erase(ArrayOf(h, f)) && |ArrayOf(h, f).kids| == |ArrayOf(g, f).kids|
  {
    hide Erase;
    SameStructAt(g, h, f);
    SameKids(At(g, f), At(h, f));
    SameArray(At(g, f).kids[Native], At(h, f).kids[Native]);
  }

  lemma SameArray(a: Graph, b: Graph)
    requires Erase(a) == Erase(b) && IsArray(a)
    ensures IsArray(b) && a.kids.Keys == b.kids.Keys && |a.kids| == |b.kids|
  {
    SameKids(a, b);
    assert |a.kids| == |a.kids.Keys| && |b.kids| == |b.kids.Keys|;
  }

  lemma SameLeaf(g: Graph, h: Graph, f: string)
    requires Erase(g) == Erase(h) && g.Node? && Field(f) in g.kids && g.kids[Field(f)].Leaf?
    ensures h.Node? && g.tag == h.tag && Field(f) in h.kids && h.kids[Field(f)] == g.kids[Field(f)]
  {
    SameKids(g, h);
  }

  /** Graphs of equal value are points together and stand for the same vector. */
  lemma SamePoint(g: Graph, h: Graph)
    requires Erase(g) == Erase(h) && IsPointGraph(g)
    ensures IsPointGraph(h) && PointVecOf(h) == PointVecOf(g)
  {
    hide Erase;
    SameStructAt(g, h, POINT_MAP);
    SameArrayAt(At(g, POINT_MAP), At(h, POINT_MAP), "keys_");
    SameArrayAt(At(g, POINT_MAP), At(h, POINT_MAP), "values_");
    SameKids(KeysOf(g), KeysOf(h));
    SameKids(VoltagesOf(g), VoltagesOf(h));
    forall i: nat | i < |KeysOf(h).kids|
      ensures IsGateGraph(KeysOf(h).kids[Index(i)])
      ensures KeysOf(h).kids[Index(i)].kids[Field("name_")] == KeysOf(g).kids[Index(i)].kids[Field("name_")]
      ensures IsVoltageGraph(VoltagesOf(h).kids[Index(i)])
      ensures VoltagesOf(h).kids[Index(i)].kids[Field("value_")] == VoltagesOf(g).kids[Index(i)].kids[Field("value_")]
    {
      SameLeaf(KeysOf(g).kids[Index(i)], KeysOf(h).kids[Index(i)], "name_");
      SameLeaf(VoltagesOf(g).kids[Index(i)], VoltagesOf(h).kids[Index(i)], "value_");
    }
  }

  // ---------------------------------------------------------------------------
  // Replacing voltages
  // ---------------------------------------------------------------------------

  /** An array of voltages at path base. */
  ghost predicate VoltagesAt(g: Graph, base: seq<Step>) {
    Reaches(g, base) && IsVoltageArray(Sub(g, base))
  }

  ghost function Voltage(v: Graph, x: real): Graph
    requires v.Node?
  {
    v.(kids := v.kids[Field("value_") := Leaf(RealV(x))])
  }

  ghost predicate IsVoltageArray(a: Graph) {
    IsArray(a) && forall i: nat :: i < |a.kids| ==> IsVoltageGraph(a.kids[Index(i)])
  }

  ghost function SetVolts(a: Graph, xs: seq<real>): Graph
    requires IsVoltageArray(a) && |xs| == |a.kids|
  {
    a.(kids := map st | st in a.kids :: Voltage(a.kids[st], xs[st.i]))
  }

  /** g with the voltages of the array at path base set to xs and nothing else changed. */
  ghost function WithVolts(g: Graph, base: seq<Step>, xs: seq<real>): Graph
    requires VoltagesAt(g, base) && |xs| == |Sub(g, base).kids|
    decreases base
  {
    if base == [] then SetVolts(g, xs)
    else g.(kids := g.kids[base[0] := WithVolts(g.kids[base[0]], base[1..], xs)])
  }

  lemma {:induction false} SubAppend(g: Graph, p: seq<Step>, st: Step)
    requires Reaches(g, p) && st in Sub(g, p).kids && Sub(g, p).kids[st].Node?
    ensures Reaches(g, p + [st]) && Sub(g, p + [st]) == Sub(g, p).kids[st]
    decreases p
  {
    if p != [] {
      SubAppend(g.kids[p[0]], p[1..], st);
      assert (p + [st])[1..] == p[1..] + [st];
    } else {
      assert [st][1..] == [];
    }
  }

  /** Replaced voltages sit on the same nodes and read as what was put there. */
  lemma {:induction false} WithVoltsAt(g: Graph, base: seq<Step>, xs: seq<real>)
    requires VoltagesAt(g, base) && |xs| == |Sub(g, base).kids|
    ensures var h := WithVolts(g, base, xs); h.Node? && h.tag == g.tag && h.id == g.id && h.kids.Keys == g.kids.Keys
    ensures var h := WithVolts(g, base, xs); VoltagesAt(h, base) && |Sub(h, base).kids| == |xs|
    ensures forall i :: 0 <= i < |xs| ==>
              Sub(WithVolts(g, base, xs), base).kids[Index(i)] == Voltage(Sub(g, base).kids[Index(i)], xs[i])
    decreases base
  {
    var h := WithVolts(g, base, xs);
    if base == [] {
      assert h.kids.Keys == g.kids.Keys;
      assert |h.kids| == |h.kids.Keys| && |g.kids| == |g.kids.Keys|;
    } else {
      WithVoltsAt(g.kids[base[0]], base[1..], xs);
    }
  }

  lemma VoltageNodes(v: Graph, x: real)
    requires IsVoltageGraph(v)
    ensures Nodes(Voltage(v, x)) == Nodes(v) && (Separated(v) ==> Separated(Voltage(v, x)))
  {
    var w := Voltage(v, x);
    assert forall st :: st in v.kids ==> Nodes(w.kids[st]) == Nodes(v.kids[st]);
  }

  lemma {:induction false} WithVoltsNodes(g: Graph, base: seq<Step>, xs: seq<real>)
    requires VoltagesAt(g, base) && |xs| == |Sub(g, base).kids|
    ensures Nodes(WithVolts(g, base, xs)) == Nodes(g)
    ensures Separated(g) ==> Separated(WithVolts(g, base, xs))
    decreases base
  {
    var h := WithVolts(g, base, xs);
    if base == [] {
      forall st | st in g.kids
        ensures Nodes(h.kids[st]) == Nodes(g.kids[st]) && (Separated(g.kids[st]) ==> Separated(h.kids[st]))
      {
        VoltageNodes(g.kids[st], xs[st.i]);
      }
    } else {
      WithVoltsNodes(g.kids[base[0]], base[1..], xs);
    }
    assert forall st :: st in g.kids ==> Nodes(h.kids[st]) == Nodes(g.kids[st]);
  }

  lemma VoltageTwice(v: Graph, x: real, y: real)
    requires v.Node?
    ensures Voltage(Voltage(v, x), y) == Voltage(v, y)
  {
    assert v.kids[Field("value_") := Leaf(RealV(x))][Field("value_") := Leaf(RealV(y))] ==
           v.kids[Field("value_") := Leaf(RealV(y))];
  }

  lemma PutInArray(a: Graph, xs: seq<real>, j: nat, y: real)
    requires IsVoltageArray(a) && j < |xs| == |a.kids|
    ensures var h := SetVolts(a, xs);
            h.(kids := h.kids[Index(j) := Voltage(h.kids[Index(j)], y)]) == SetVolts(a, xs[j := y])
  {
    var h, k := SetVolts(a, xs), SetVolts(a, xs[j := y]);
    var kids := h.kids[Index(j) := Voltage(h.kids[Index(j)], y)];
    forall st | st in a.kids
      ensures kids[st] == k.kids[st]
    {
      VoltageTwice(a.kids[st], xs[st.i], y);
      assert k.kids[st] == Voltage(a.kids[st], xs[j := y][st.i]);
    }
    assert kids == k.kids;
  }

  /** The array itself, reached by the empty path. */
  lemma PutAtRoot(a: Graph, xs: seq<real>, j: nat, y: real)
    requires VoltagesAt(a, []) && j < |xs| == |Sub(a, []).kids|
    ensures Reaches(WithVolts(a, [], xs), [Index(j)])
    ensures Put(WithVolts(a, [], xs), [Index(j)], "value_", Leaf(RealV(y))) == WithVolts(a, [], xs[j := y])
  {
    WithVoltsAt(a, [], xs);
    hide IsVoltageArray, IsVoltageGraph;
    assert [Index(j)][1..] == [];
    PutInArray(a, xs, j, y);
  }

  /** One step of the path. */
  lemma PutBelow(g: Graph, st: Step, h: Graph, q: seq<Step>, f: string, x: Graph)
    requires g.Node? && st in g.kids && Reaches(h, q)
    ensures var g' := g.(kids := g.kids[st := h]);
            Reaches(g', [st] + q) && Put(g', [st] + q, f, x) == g.(kids := g.kids[st := Put(h, q, f, x)])
  {
    var g' := g.(kids := g.kids[st := h]);
    assert ([st] + q)[1..] == q;
    assert g.kids[st := h][st := Put(h, q, f, x)] == g.kids[st := Put(h, q, f, x)];
  }

  lemma VoltagesBelow(g: Graph, base: seq<Step>, xs: seq<real>)
    requires base != [] && VoltagesAt(g, base) && |xs| == |Sub(g, base).kids|
    ensures g.Node? && base[0] in g.kids && VoltagesAt(g.kids[base[0]], base[1..])
    ensures |Sub(g.kids[base[0]], base[1..]).kids| == |xs|
    ensures WithVolts(g, base, xs) == g.(kids := g.kids[base[0] := WithVolts(g.kids[base[0]], base[1..], xs)])
  {
  }

  /** Writing one voltage in place is replacing one element of the list of voltages. */
  lemma {:induction false} PutVoltage(g: Graph, base: seq<Step>, xs: seq<real>, j: nat, y: real)
    requires VoltagesAt(g, base) && j < |xs| == |Sub(g, base).kids|
    ensures Reaches(WithVolts(g, base, xs), base + [Index(j)])
    ensures Put(WithVolts(g, base, xs), base + [Index(j)], "value_", Leaf(RealV(y))) == WithVolts(g, base, xs[j := y])
    decreases base
  {
    hide *;
    if base == [] {
      assert base + [Index(j)] == [Index(j)];
      PutAtRoot(g, xs, j, y);
    } else {
      VoltagesBelow(g, base, xs);
      VoltagesBelow(g, base, xs[j := y]);
      var kid, q := g.kids[base[0]], base[1..];
      PutVoltage(kid, q, xs, j, y);
      PutBelow(g, base[0], WithVolts(kid, q, xs), q + [Index(j)], "value_", Leaf(RealV(y)));
      assert base + [Index(j)] == [base[0]] + (q + [Index(j)]);
    }
  }

  lemma {:induction false} WithVoltsSame(g: Graph, base: seq<Step>, xs: seq<real>)
    requires VoltagesAt(g, base) && |xs| == |Sub(g, base).kids|
    requires forall i :: 0 <= i < |xs| ==> Sub(g, base).kids[Index(i)].kids[Field("value_")] == Leaf(RealV(xs[i]))
    ensures WithVolts(g, base, xs) == g
    decreases base
  {
    if base == [] {
      var h := WithVolts(g, base, xs);
      forall st | st in g.kids
        ensures h.kids[st] == g.kids[st]
      {
        assert g.kids[st].kids[Field("value_") := Leaf(RealV(xs[st.i]))] == g.kids[st].kids;
      }
      assert h.kids == g.kids;
    } else {
      WithVoltsSame(g.kids[base[0]], base[1..], xs);
      assert g.kids[base[0] := g.kids[base[0]]] == g.kids;
    }
  }

  lemma EraseVoltage(v: Graph, x: real)
    requires IsVoltageGraph(v)
    ensures IsVoltageGraph(Erase(v)) && Erase(Voltage(v, x)) == Voltage(Erase(v), x)
  {
    assert (map st | st in Voltage(v, x).kids :: Erase(Voltage(v, x).kids[st])) ==
           (map st | st in v.kids :: Erase(v.kids[st]))[Field("value_") := Leaf(RealV(x))];
  }

  lemma EraseUpdate(g: Graph, st: Step, h: Graph)
    requires g.Node? && st in g.kids
    ensures Erase(g).Node?
    ensures Erase(g.(kids := g.kids[st := h])) == Erase(g).(kids := Erase(g).kids[st := Erase(h)])
  {
    var k := g.(kids := g.kids[st := h]);
    assert Erase(k).kids == Erase(g).kids[st := Erase(h)];
  }

  lemma EraseArray(a: Graph, xs: seq<real>)
    requires IsVoltageArray(a) && |xs| == |a.kids|
    ensures IsVoltageArray(Erase(a)) && |Erase(a).kids| == |xs|
    ensures Erase(SetVolts(a, xs)) == SetVolts(Erase(a), xs)
  {
    var e := Erase(a);
    ErasedArray(a);
    hide IsArray;
    forall st | st in a.kids
      ensures IsVoltageGraph(e.kids[st]) && Erase(Voltage(a.kids[st], xs[st.i])) == Voltage(e.kids[st], xs[st.i])
    {
      assert IsVoltageGraph(a.kids[Index(st.i)]);
      EraseVoltage(a.kids[st], xs[st.i]);
    }
    hide IsVoltageGraph, Voltage;
    assert Erase(SetVolts(a, xs)).kids == SetVolts(e, xs).kids;
  }

  lemma ErasedArray(a: Graph)
    requires IsArray(a)
    ensures IsArray(Erase(a)) && Erase(a).kids.Keys == a.kids.Keys && |Erase(a).kids| == |a.kids|
    ensures forall st :: st in a.kids ==> st.Index? && st.i < |a.kids| && Erase(a).kids[st] == Erase(a.kids[st])
    ensures forall i: nat :: i < |a.kids| ==> Index(i) in a.kids
  {
    var e := Erase(a);
    assert e.kids.Keys == a.kids.Keys && |e.kids| == |e.kids.Keys| && |a.kids| == |a.kids.Keys|;
  }

  /** Replacing voltages acts on values: it ignores which nodes hold them. */
  lemma {:induction false} EraseWithVolts(g: Graph, base: seq<Step>, xs: seq<real>)
    requires VoltagesAt(g, base) && |xs| == |Sub(g, base).kids|
    ensures VoltagesAt(Erase(g), base) && |Sub(Erase(g), base).kids| == |xs|
    ensures Erase(WithVolts(g, base, xs)) == WithVolts(Erase(g), base, xs)
    decreases base
  {
    if base == [] {
      EraseArray(g, xs);
    } else {
      EraseWithVolts(g.kids[base[0]], base[1..], xs);
      EraseUpdate(g, base[0], WithVolts(g.kids[base[0]], base[1..], xs));
    }
  }

  // ---------------------------------------------------------------------------
  // Points and axes with other voltages
  // ---------------------------------------------------------------------------

  function CoeffsOf(v: Vec): (xs: seq<real>)
    ensures |xs| == |v| && forall i :: 0 <= i < |v| ==> xs[i] == v[i].coeff
  {
    if v == [] then [] else CoeffsOf(v[..|v| - 1]) + [v[|v| - 1].coeff]
  }

  lemma SubThree(g: Graph, a: Step, b: Step, c: Step)
    requires g.Node? && a in g.kids && g.kids[a].Node? && b in g.kids[a].kids && g.kids[a].kids[b].Node?
    requires c in g.kids[a].kids[b].kids && g.kids[a].kids[b].kids[c].Node?
    ensures Reaches(g, [a, b, c]) && Sub(g, [a, b, c]) == g.kids[a].kids[b].kids[c]
  {
    var p := [a, b, c];
    assert p[1..] == [b, c] && p[1..][1..] == [c] && p[1..][1..][1..] == [];
    var g1, g2, g3 := g.kids[a], g.kids[a].kids[b], g.kids[a].kids[b].kids[c];
    assert Reaches(g3, []) && Sub(g3, []) == g3;
    assert Reaches(g2, [c]) && Sub(g2, [c]) == g3;
    assert Reaches(g1, [b, c]) && Sub(g1, [b, c]) == g3;
  }

  lemma PointPaths(g: Graph)
    requires IsPointGraph(g)
    ensures VoltagesAt(g, VALUES_PATH) && Sub(g, VALUES_PATH) == VoltagesOf(g) && |VoltagesOf(g).kids| == |PointVecOf(g)|
  {
    SubThree(g, Field(POINT_MAP), Field("values_"), Native);
  }

  ghost function WithKid(g: Graph, st: Step, h: Graph): Graph
    requires g.Node?
  {
    g.(kids := g.kids[st := h])
  }

  /** Point g with the array a of voltages. */
  ghost function WithArray(g: Graph, a: Graph): Graph
    requires IsPointGraph(g)
  {
    var m := At(g, POINT_MAP);
    WithKid(g, Field(POINT_MAP), WithKid(m, Field("values_"), WithKid(At(m, "values_"), Native, a)))
  }

  lemma WithVoltsStep(g: Graph, st: Step, q: seq<Step>, xs: seq<real>)
    requires g.Node? && st in g.kids && VoltagesAt(g.kids[st], q) && |xs| == |Sub(g.kids[st], q).kids|
    ensures VoltagesAt(g, [st] + q) && Sub(g, [st] + q) == Sub(g.kids[st], q)
    ensures WithVolts(g, [st] + q, xs) == WithKid(g, st, WithVolts(g.kids[st], q, xs))
  {
    assert ([st] + q)[1..] == q;
  }

  lemma UnrollWithVolts(g: Graph, xs: seq<real>)
    requires IsPointGraph(g) && |xs| == |VoltagesOf(g).kids|
    ensures VoltagesAt(g, VALUES_PATH) && Sub(g, VALUES_PATH) == VoltagesOf(g)
    ensures WithVolts(g, VALUES_PATH, xs) == WithArray(g, SetVolts(VoltagesOf(g), xs))
  {
    var m, vs := At(g, POINT_MAP), At(At(g, POINT_MAP), "values_");
    assert IsVoltageArray(VoltagesOf(g));
    assert Reaches(vs.kids[Native], []) && Sub(vs.kids[Native], []) == VoltagesOf(g);
    hide IsPointGraph, IsVoltageArray, WithVolts, Reaches, Sub;
    assert WithVolts(vs.kids[Native], [], xs) == SetVolts(VoltagesOf(g), xs) by {
      UnrollEmpty(vs.kids[Native], xs);
    }
    WithVoltsStep(vs, Native, [], xs);
    assert [Native] + [] == [Native];
    WithVoltsStep(m, Field("values_"), [Native], xs);
    assert [Field("values_")] + [Native] == [Field("values_"), Native];
    WithVoltsStep(g, Field(POINT_MAP), [Field("values_"), Native], xs);
    assert [Field(POINT_MAP)] + [Field("values_"), Native] == VALUES_PATH;
  }

  lemma UnrollEmpty(a: Graph, xs: seq<real>)
    requires IsVoltageArray(a) && |xs| == |a.kids|
    ensures VoltagesAt(a, []) && Sub(a, []) == a && WithVolts(a, [], xs) == SetVolts(a, xs)
  {
  }

  lemma MapWithArray(m: Graph, a: Graph)
    requires ArrayAt(m, "keys_") && ArrayAt(m, "values_") && IsArray(a)
    ensures var m' := WithKid(m, Field("values_"), WithKid(At(m, "values_"), Native, a));
            && ArrayAt(m', "keys_") && ArrayOf(m', "keys_") == ArrayOf(m, "keys_")
            && ArrayAt(m', "values_") && ArrayOf(m', "values_") == a && m'.tag == m.tag
  {
    hide IsArray;
  }

  lemma PointWithArray(g: Graph, a: Graph)
    requires IsPointGraph(g) && IsVoltageArray(a) && |a.kids| == |KeysOf(g).kids|
    ensures IsPointGraph(WithArray(g, a)) && KeysOf(WithArray(g, a)) == KeysOf(g) && VoltagesOf(WithArray(g, a)) == a
  {
    MapWithArray(At(g, POINT_MAP), a);
    hide IsArray, IsVoltageGraph, IsGateGraph, ArrayAt;
    var h := WithArray(g, a);
    assert StructAt(h, POINT_MAP);
  }

  /** Replacing every voltage of a point keeps its gates. */
  lemma PointWithVolts(g: Graph, xs: seq<real>)
    requires IsPointGraph(g) && |xs| == |PointVecOf(g)|
    ensures VoltagesAt(g, VALUES_PATH) && |Sub(g, VALUES_PATH).kids| == |xs|
    ensures var h := WithVolts(g, VALUES_PATH, xs); IsPointGraph(h) && |PointVecOf(h)| == |xs|
    ensures forall i :: 0 <= i < |xs| ==> PointVecOf(WithVolts(g, VALUES_PATH, xs))[i] == Entry(PointVecOf(g)[i].gate, xs[i])
  {
    PointPaths(g);
    var a := VoltagesOf(g);
    SetVoltsArray(a, xs);
    hide IsPointGraph, IsVoltageArray, SetVolts, WithArray, WithVolts, Sub, Reaches;
    UnrollWithVolts(g, xs);
    PointWithArray(g, SetVolts(a, xs));
  }

  lemma SetVoltsArray(a: Graph, xs: seq<real>)
    requires IsVoltageArray(a) && |xs| == |a.kids|
    ensures IsVoltageArray(SetVolts(a, xs)) && |SetVolts(a, xs).kids| == |xs|
    ensures forall i :: 0 <= i < |xs| ==> SetVolts(a, xs).kids[Index(i)] == Voltage(a.kids[Index(i)], xs[i])
  {
    var h := SetVolts(a, xs);
    assert h.kids.Keys == a.kids.Keys && |h.kids| == |h.kids.Keys| && |a.kids| == |a.kids.Keys|;
  }

  lemma AxisPaths(g: Graph)
    requires IsAxisGraph(g)
    ensures VoltagesAt(g, OFFSETS_PATH) && Sub(g, OFFSETS_PATH) == VoltagesOf(At(g, "offset_"))
    ensures |VoltagesOf(At(g, "offset_")).kids| == |OffsetVecOf(g)|
  {
    PointPaths(At(g, "offset_"));
    assert OFFSETS_PATH[1..] == VALUES_PATH;
  }

  /** Replacing every offset of an axis keeps its gates. */
  lemma AxisWithVolts(g: Graph, xs: seq<real>)
    requires IsAxisGraph(g) && |xs| == |OffsetVecOf(g)|
    ensures VoltagesAt(g, OFFSETS_PATH) && |Sub(g, OFFSETS_PATH).kids| == |xs|
    ensures var h := WithVolts(g, OFFSETS_PATH, xs); IsAxisGraph(h) && |OffsetVecOf(h)| == |xs|
    ensures forall i :: 0 <= i < |xs| ==> OffsetVecOf(WithVolts(g, OFFSETS_PATH, xs))[i] == Entry(OffsetVecOf(g)[i].gate, xs[i])
  {
    AxisPaths(g);
    PointWithVolts(At(g, "offset_"), xs);
    assert OFFSETS_PATH[1..] == VALUES_PATH;
    var h := WithVolts(g, OFFSETS_PATH, xs);
    assert h == g.(kids := g.kids[Field("offset_") := WithVolts(At(g, "offset_"), VALUES_PATH, xs)]);
    WithVoltsAt(At(g, "offset_"), VALUES_PATH, xs);
  }
}
