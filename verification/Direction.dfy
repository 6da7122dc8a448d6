/** Directions in gate space: linear algebra by linear search over parallel arrays.
    Their clone copies the structs but shares the arrays, so the result of Scale, Add
    and Subtract is stored in the receiver's own arrays. */
module DirectionOps {
  import opened RuntimeGraph
  import opened SparseVector
  import opened Accessors
  import opened Rounds

  method CoefficientAt(d: StructInstance, gate: RuntimeValue, ghost l: Layout) returns (coeff: real, found: bool)
    requires IsDirection(d, l) && IsGate(gate)
    ensures found <==> IndexOf(DirectionVec(l), GateName(gate)) < |DirectionVec(l)|
    ensures coeff == Coeff(DirectionVec(l), GateName(gate))
  {
    var keys, values := Keys(d, DIRECTION_MAP), Values(d, DIRECTION_MAP);
    for i := 0 to |keys.elements|
      invariant forall k :: 0 <= k < i ==> GateName(keys.elements[k]) != GateName(gate)
    {
      if GateName(keys.elements[i]) == GateName(gate) {
        IndexOfIs(DirectionVec(l), GateName(gate), i);
        return values.elements[i].r, true;
      }
    }
    IndexOfIs(DirectionVec(l), GateName(gate), |keys.elements|);
    return 0.0, false;
  }

  method NormSquaredOf(d: StructInstance, ghost l: Layout) returns (result: real)
    requires IsDirection(d, l)
    ensures result == NormSquared(DirectionVec(l))
  {
    var values := Values(d, DIRECTION_MAP);
    ghost var v := DirectionVec(l);
    result := 0.0;
    for i := 0 to |values.elements|
      invariant result == NormSquared(v[..i])
    {
      var coeff := values.elements[i].r;
      assert v[..i + 1][..i] == v[..i];
      result := result + Times(coeff, coeff);
    }
    assert v[..|v|] == v;
  }

  method DotOf(self: StructInstance, other: StructInstance, ghost l: Layout, ghost m: Layout) returns (dot: real)
    requires IsDirection(self, l) && IsDirection(other, m)
    ensures dot == Dot(DirectionVec(l), DirectionVec(m))
  {
    hide *;
    OpenDirection(self, l);
    OpenDirection(other, m);
    var keys, values := DirectionArrays(self, l);
    ghost var v, w := DirectionVec(l), DirectionVec(m);
    DotStart(v, w);
    ListedHere(l);
    dot := 0.0;
    for i := 0 to |keys.elements|
      invariant IsDirection(other, m) && DirectionVec(m) == w
      invariant ListsGates(v, keys.elements, l.structs) && ListsReals(v, values.elements) && i <= |v| == |keys.elements|
      invariant dot == Dot(v[..i], w)
    {
      ListedAt(v, i, keys.elements, values.elements, l.structs);
      var rhs, found := CoefficientAt(other, keys.elements[i], m);
      DotStep(v, w, i);
      if found {
        var lhs := values.elements[i].r;
        dot := dot + Times(lhs, rhs);
      } else {
        MissingCoeff(w, v[i].gate);
        TimesZero(v[i].coeff);
      }
    }
    assert v[..|v|] == v;
  }

  lemma ListedHere(l: Layout)
    requires GateReals(l)
    ensures ListsGates(DirectionVec(l), l.keys.elements, l.structs) && ListsReals(DirectionVec(l), l.values.elements)
    ensures |DirectionVec(l)| == |l.keys.elements|
  {
  }

  lemma OpenDirection(d: StructInstance, l: Layout)
    requires IsDirection(d, l)
    ensures Leads(d, DIRECTION_MAP, l) && GateReals(l)
  {
  }

  lemma DotStart(v: Vec, w: Vec)
    ensures Dot(v[..0], w) == 0.0
  {
  }

  lemma DotStep(v: Vec, w: Vec, i: nat)
    requires i < |v|
    ensures Dot(v[..i + 1], w) == Dot(v[..i], w) + Times(v[i].coeff, Coeff(w, v[i].gate))
  {
    assert v[..i + 1][..i] == v[..i];
  }

  lemma MissingCoeff(v: Vec, g: string)
    requires IndexOf(v, g) == |v|
    ensures Coeff(v, g) == 0.0
  {
  }

  /** A sharing clone of a direction is a direction on the same two arrays. */
  lemma SharedClone(d: StructInstance, g: Graph, c: StructInstance, h: Graph, l: Layout)
    requires Denotes(false, StructV(d), g) && Denotes(false, StructV(c), h) && Erase(g) == Erase(h)
    requires Leads(d, DIRECTION_MAP, l)
    ensures Spine(c, DIRECTION_MAP) <= Nodes(h)
    ensures Leads(c, DIRECTION_MAP, l.(structs := l.structs + Spine(c, DIRECTION_MAP)))
  {
    hide Erase, Denotes, Nodes;
    SameStructField(false, d, g, c, h, DIRECTION_MAP);
    var dm, gm := StructField(d, DIRECTION_MAP), g.kids[Field(DIRECTION_MAP)];
    var cm, hm := StructField(c, DIRECTION_MAP), h.kids[Field(DIRECTION_MAP)];
    SameHeldArray(dm, gm, cm, hm, "keys_");
    SameHeldArray(dm, gm, cm, hm, "values_");
    StructKids(false, c, h);
  }

  lemma SameHeldArray(a: StructInstance, g: Graph, b: StructInstance, h: Graph, field: string)
    requires Denotes(false, StructV(a), g) && Denotes(false, StructV(b), h) && Erase(g) == Erase(h)
    requires HasArray(a, field)
    ensures HasArray(b, field) && ArrayField(b, field) == ArrayField(a, field) && StructField(b, field) in Nodes(h)
  {
    hide Erase, Denotes, Nodes;
    SameStructField(false, a, g, b, h, field);
    StructKids(false, StructField(a, field), g.kids[Field(field)]);
    StructKids(false, StructField(b, field), h.kids[Field(field)]);
    SameKids(g.kids[Field(field)], h.kids[Field(field)]);
  }

  /** The sharing clone that Scale, Add and Subtract start from. */
  method CloneDirection(self: StructInstance, ghost g: Graph, ghost l: Layout)
      returns (result: StructInstance, ghost r: Layout)
    requires Denotes(false, StructV(self), g) && IsDirection(self, l)
    ensures r.keys == l.keys && r.values == l.values && l.structs <= r.structs
    ensures fresh(Spine(result, DIRECTION_MAP)) && fresh(r.structs - l.structs)
    ensures IsDirection(self, l) && IsDirection(result, r) && DirectionVec(r) == DirectionVec(l) == old(DirectionVec(l))
  {
    hide Denotes, Erase, Separated, Nodes, Leads;
    NodesAllocated(g);
    StructKids(false, self, g);
    var c, h := CloneStruct(false, self, g);
    SameKids(g, h);
    TaggedStruct(false, StructV(c), h);
    SharedClone(self, g, c, h, l);
    result, r := c, l.(structs := l.structs + Spine(c, DIRECTION_MAP));
  }

  /** The loop of Scale and of Normalize: multiply every value in place. */
  method ScaleValues(values: ArrayValue, factor: real)
    requires Reals(values.elements)
    modifies values
    ensures Reals(values.elements) && |values.elements| == |old(values.elements)|
    ensures forall k :: 0 <= k < |values.elements| ==> values.elements[k].r == Times(old(values.elements[k].r), factor)
  {
    hide Times;
    for i := 0 to |values.elements|
      invariant |values.elements| == |old(values.elements)| && Reals(values.elements)
      invariant forall k :: 0 <= k < i ==> values.elements[k].r == Times(old(values.elements[k].r), factor)
      invariant forall k :: i <= k < |values.elements| ==> values.elements[k] == old(values.elements[k])
    {
      var coeff := values.elements[i].r;
      values.elements := values.elements[i := RealV(Times(coeff, factor))];
    }
  }

  lemma ScaledVec(keys: seq<RuntimeValue>, values: seq<RuntimeValue>, values': seq<RuntimeValue>, factor: real,
                  structs: set<StructInstance>)
    requires |keys| == |values| == |values'| && Gates(keys, structs) && Reals(values) && Reals(values')
    requires forall k :: 0 <= k < |values| ==> values'[k].r == Times(values[k].r, factor)
    ensures VecOf(keys, values', structs) == Scale(VecOf(keys, values, structs), factor)
  {
    hide Times;
  }

  /** Scale returns a scaled direction whose arrays are self's own: self is scaled too. */
  method ScaleDirection(self: StructInstance, factor: real, ghost g: Graph, ghost l: Layout)
      returns (result: StructInstance, ghost r: Layout)
    requires Denotes(false, StructV(self), g) && IsDirection(self, l)
    modifies l.values
    ensures r.keys == l.keys && r.values == l.values && fresh(Spine(result, DIRECTION_MAP)) && fresh(r.structs - l.structs)
    ensures IsDirection(self, l) && IsDirection(result, r)
    ensures DirectionVec(r) == DirectionVec(l) == Scale(old(DirectionVec(l)), factor)
  {
    hide Times, Leads, Gates, Names, Coefficients, Denotes;
    result, r := CloneDirection(self, g, l);
    var _, values := DirectionArrays(result, r);
    ScaleValues(values, factor);
    ScaledVec(l.keys.elements, old(l.values.elements), l.values.elements, factor, l.structs);
    ScaledVec(r.keys.elements, old(l.values.elements), r.values.elements, factor, r.structs);
  }

  /** Normalize scales self in place by the inverse of root, the square root of its
      squared norm, unless that is zero. */
  method NormalizeDirection(self: StructInstance, root: real, ghost l: Layout)
    requires IsDirection(self, l) && IsNorm(root, DirectionVec(l))
    modifies l.values
    ensures IsDirection(self, l) && DirectionVec(l) == Normalized(old(DirectionVec(l)), root)
    ensures root == 0.0 ==> l.values.elements == old(l.values.elements)
    ensures |l.values.elements| == |old(l.values.elements)|
    ensures root != 0.0 ==>
              forall k :: 0 <= k < |l.values.elements| ==> root * l.values.elements[k].r == old(l.values.elements)[k].r
  {
    hide Times, Leads, Gates, Names, Coefficients;
    if root != 0.0 {
      var _, values := DirectionArrays(self, l);
      ScaleValues(values, 1.0 / root);
      ScaledVec(l.keys.elements, old(l.values.elements), l.values.elements, 1.0 / root, l.structs);
      DividedElements(old(l.values.elements), l.values.elements, root);
    }
  }

  lemma DividedElements(values: seq<RuntimeValue>, values': seq<RuntimeValue>, root: real)
    requires |values| == |values'| && Reals(values) && Reals(values') && root != 0.0
    requires forall k :: 0 <= k < |values| ==> values'[k].r == Times(values[k].r, 1.0 / root)
    ensures forall k :: 0 <= k < |values| ==> root * values'[k].r == values[k].r
  {
    hide Times;
    forall k | 0 <= k < |values|
      ensures root * values'[k].r == values[k].r
    {
      DividedTimes(values[k].r, root);
    }
  }

  method DirectionArrays(d: StructInstance, ghost l: Layout) returns (keys: ArrayValue, values: ArrayValue)
    requires Leads(d, DIRECTION_MAP, l)
    ensures keys == l.keys && values == l.values
  {
    keys, values := Keys(d, DIRECTION_MAP), Values(d, DIRECTION_MAP);
  }

  /** What adding delta at a gate does to the elements of the two arrays. */
  ghost predicate EntryAdded(keys: seq<RuntimeValue>, values: seq<RuntimeValue>,
                             keys': seq<RuntimeValue>, values': seq<RuntimeValue>, j: nat, gate: RuntimeValue, delta: real)
    requires |keys| == |values| && j <= |keys|
  {
    if j < |keys| then keys' == keys && values[j].RealV? && values' == values[j := RealV(values[j].r + delta)]
    else keys' == keys + [gate] && values' == values + [RealV(delta)]
  }

  lemma EntryAddedVec(keys: seq<RuntimeValue>, values: seq<RuntimeValue>, keys': seq<RuntimeValue>, values': seq<RuntimeValue>,
                      gate: RuntimeValue, delta: real, structs: set<StructInstance>)
    requires |keys| == |values| && Gates(keys, structs) && Reals(values)
    requires IsGate(gate) && Target(gate) <= structs
    requires EntryAdded(keys, values, keys', values', IndexOf(VecOf(keys, values, structs), GateName(gate)), gate, delta)
    ensures |keys'| == |values'| && Gates(keys', structs) && Reals(values')
    ensures VecOf(keys', values', structs) == AddOne(VecOf(keys, values, structs), Entry(GateName(gate), delta))
  {
  }

  /** One round of the loop of Add and Subtract. */
  method AddEntry(keys: ArrayValue, values: ArrayValue, gate: RuntimeValue, delta: real, ghost structs: set<StructInstance>)
    requires keys != values && |keys.elements| == |values.elements| && Gates(keys.elements, structs) && Reals(values.elements)
    requires IsGate(gate)
    modifies keys, values
    ensures EntryAdded(old(keys.elements), old(values.elements), keys.elements, values.elements,
                       IndexOf(old(VecOf(keys.elements, values.elements, structs)), GateName(gate)), gate, delta)
  {
    var j := FindGate(keys, gate, GateName(gate), VecOf(keys.elements, values.elements, structs), structs);
    hide VecOf, Gates;
    if j < |keys.elements| {
      var lhs := values.elements[j].r;
      values.elements := values.elements[j := RealV(lhs + delta)];
    } else {
      keys.elements := keys.elements + [gate];
      values.elements := values.elements + [RealV(delta)];
    }
  }

  /** The keys list the gates of w. */
  ghost predicate ListsGates(w: Vec, keys: seq<RuntimeValue>, structs: set<StructInstance>)
    reads structs
  {
    && |w| == |keys|
    && forall k :: 0 <= k < |w| ==> Target(keys[k]) <= structs && IsGate(keys[k]) && w[k].gate == GateName(keys[k])
  }

  /** The values list the coefficients of w. */
  ghost predicate ListsReals(w: Vec, values: seq<RuntimeValue>) {
    |w| == |values| && forall k :: 0 <= k < |w| ==> values[k] == RealV(w[k].coeff)
  }

  lemma ListedAt(w: Vec, i: nat, keys: seq<RuntimeValue>, values: seq<RuntimeValue>, structs: set<StructInstance>)
    requires ListsGates(w, keys, structs) && ListsReals(w, values) && i < |w|
    ensures |w| == |keys| == |values| && IsGate(keys[i]) && Target(keys[i]) <= structs
    ensures w[i].gate == GateName(keys[i]) && values[i] == RealV(w[i].coeff)
  {
  }

  /** A gate is found no later than where it is listed. */
  lemma FoundNoLater(keys: seq<RuntimeValue>, values: seq<RuntimeValue>, i: nat, structs: set<StructInstance>)
    requires |keys| == |values| && Gates(keys, structs) && Reals(values) && i < |keys|
    ensures IndexOf(VecOf(keys, values, structs), GateName(keys[i])) <= i
  {
  }

  lemma ListedLength(w: Vec, keys: seq<RuntimeValue>, structs: set<StructInstance>)
    requires ListsGates(w, keys, structs)
    ensures |w| == |keys|
  {
  }

  ghost predicate Combining(keys: seq<RuntimeValue>, values: seq<RuntimeValue>, structs: set<StructInstance>, v: Vec)
    reads structs
  {
    |keys| == |values| && Gates(keys, structs) && Reals(values) && VecOf(keys, values, structs) == v
  }

  /** What the loop reads of other: its gates, and its values unless they are the receiver's. */
  ghost predicate Readable(w: Vec, otherKeys: ArrayValue, otherValues: ArrayValue, values: ArrayValue,
                           structs: set<StructInstance>)
    reads otherKeys, otherValues, structs
  {
    ListsGates(w, otherKeys.elements, structs) && (values != otherValues ==> ListsReals(w, otherValues.elements))
  }

  /** One entry as the loop reads it. */
  lemma EntryRead(keys: ArrayValue, values: ArrayValue, otherKeys: ArrayValue, otherValues: ArrayValue,
                  i: nat, v: Vec, w: Vec, structs: set<StructInstance>)
    requires keys != values && Combining(keys.elements, values.elements, structs, v)
    requires i < |w| && (values == otherValues ==> |w| <= |v|) && Readable(w, otherKeys, otherValues, values, structs)
    ensures |otherKeys.elements| == |w| && i < |otherValues.elements|
    ensures otherValues.elements[i] == RealV(if values == otherValues then v[i].coeff else w[i].coeff)
    ensures var gate := otherKeys.elements[i]; IsGate(gate) && Target(gate) <= structs && GateName(gate) == w[i].gate
    ensures otherKeys != values && keys != otherValues
  {
    assert IsGate(otherKeys.elements[i]);
    assert otherValues.elements[i].RealV?;
    assert keys.elements != [] ==> IsGate(keys.elements[0]);
    assert values.elements != [] ==> values.elements[0].RealV?;
  }

  /** One round of the outer loop of Add (and of Subtract, with the sign flipped). */
  method CombineEntry(keys: ArrayValue, values: ArrayValue, otherKeys: ArrayValue, otherValues: ArrayValue, negate: bool,
                      i: nat, ghost v: Vec, ghost w: Vec, ghost structs: set<StructInstance>)
    requires keys != values && Combining(keys.elements, values.elements, structs, v)
    requires i < |w| && (values == otherValues ==> |w| <= |v|) && Readable(w, otherKeys, otherValues, values, structs)
    modifies keys, values
    ensures var read := if values == otherValues then v[i].coeff else w[i].coeff;
            Combining(keys.elements, values.elements, structs, AddOne(v, Entry(w[i].gate, Signed(read, negate))))
    ensures Readable(w, otherKeys, otherValues, values, structs)
    ensures otherKeys.elements == old(otherKeys.elements)
    ensures forall x :: x in keys.elements ==> x in old(keys.elements) || x in old(otherKeys.elements)
  {
    hide *;
    EntryRead(keys, values, otherKeys, otherValues, i, v, w, structs);
    OpenCombining(keys.elements, values.elements, structs, v);
    OpenReadable(w, otherKeys, otherValues, values, structs);
    var gate := otherKeys.elements[i];
    var rhs := Signed(otherValues.elements[i].r, negate);
    ghost var ks, vs := keys.elements, values.elements;
    AddEntry(keys, values, gate, rhs, structs);
    KeysFrom(ks, vs, keys.elements, values.elements, IndexOf(v, w[i].gate), gate, rhs);
    if keys == otherKeys {
      FoundNoLater(ks, vs, i, structs);
      KeysKept(ks, vs, keys.elements, values.elements, IndexOf(v, w[i].gate), gate, rhs);
    }
    EntryAddedVec(ks, vs, keys.elements, values.elements, gate, rhs, structs);
    CloseCombining(keys.elements, values.elements, structs, AddOne(v, Entry(w[i].gate, rhs)));
    CloseReadable(w, otherKeys, otherValues, values, structs);
  }

  lemma KeysFrom(keys: seq<RuntimeValue>, values: seq<RuntimeValue>, keys': seq<RuntimeValue>, values': seq<RuntimeValue>,
                 j: nat, gate: RuntimeValue, delta: real)
    requires |keys| == |values| && j <= |keys| && EntryAdded(keys, values, keys', values', j, gate, delta)
    ensures forall x :: x in keys' ==> x in keys || x == gate
  {
  }

  lemma KeysKept(keys: seq<RuntimeValue>, values: seq<RuntimeValue>, keys': seq<RuntimeValue>, values': seq<RuntimeValue>,
                 j: nat, gate: RuntimeValue, delta: real)
    requires |keys| == |values| && j < |keys| && EntryAdded(keys, values, keys', values', j, gate, delta)
    ensures keys' == keys
  {
  }

  lemma OpenCombining(keys: seq<RuntimeValue>, values: seq<RuntimeValue>, structs: set<StructInstance>, v: Vec)
    requires Combining(keys, values, structs, v)
    ensures |keys| == |values| && Gates(keys, structs) && Reals(values) && VecOf(keys, values, structs) == v
  {
  }

  lemma CloseCombining(keys: seq<RuntimeValue>, values: seq<RuntimeValue>, structs: set<StructInstance>, v: Vec)
    requires |keys| == |values| && Gates(keys, structs) && Reals(values) && VecOf(keys, values, structs) == v
    ensures Combining(keys, values, structs, v)
  {
  }

  lemma OpenReadable(w: Vec, otherKeys: ArrayValue, otherValues: ArrayValue, values: ArrayValue, structs: set<StructInstance>)
    requires Readable(w, otherKeys, otherValues, values, structs)
    ensures ListsGates(w, otherKeys.elements, structs) && (values != otherValues ==> ListsReals(w, otherValues.elements))
  {
  }

  lemma CloseReadable(w: Vec, otherKeys: ArrayValue, otherValues: ArrayValue, values: ArrayValue, structs: set<StructInstance>)
    requires ListsGates(w, otherKeys.elements, structs) && (values != otherValues ==> ListsReals(w, otherValues.elements))
    ensures Readable(w, otherKeys, otherValues, values, structs)
  {
  }

  method Combine(keys: ArrayValue, values: ArrayValue, otherKeys: ArrayValue, otherValues: ArrayValue, negate: bool,
                 ghost v: Vec, ghost w: Vec, ghost structs: set<StructInstance>)
    requires keys != values && Combining(keys.elements, values.elements, structs, v)
    requires (values == otherValues ==> |w| <= |v|) && Readable(w, otherKeys, otherValues, values, structs)
    modifies keys, values
    ensures Combining(keys.elements, values.elements, structs, AfterRounds(v, w, |w|, values == otherValues, negate))
    ensures forall x :: x in keys.elements ==> x in old(keys.elements) || x in old(otherKeys.elements)
  {
    hide AddOne, Signed, Combining, ListsGates, ListsReals;
    ListedLength(w, otherKeys.elements, structs);
    ghost var shared := values == otherValues;
    var i := 0;
    while i < |otherKeys.elements|
      invariant i <= |w| == |otherKeys.elements|
      invariant Combining(keys.elements, values.elements, structs, AfterRounds(v, w, i, shared, negate))
      invariant Readable(w, otherKeys, otherValues, values, structs) && otherKeys.elements == old(otherKeys.elements)
      invariant forall x :: x in keys.elements ==> x in old(keys.elements) || x in old(otherKeys.elements)
      decreases |w| - i
    {
      CombineEntry(keys, values, otherKeys, otherValues, negate, i, AfterRounds(v, w, i, shared, negate), w, structs);
      ListedLength(w, otherKeys.elements, structs);
      i := i + 1;
    }
  }

  method AddDirections(self: StructInstance, other: StructInstance, ghost g: Graph, ghost l: Layout, ghost m: Layout)
      returns (result: StructInstance, ghost r: Layout)
    requires Denotes(false, StructV(self), g) && IsDirection(self, l) && IsDirection(other, m)
    modifies l.keys, l.values
    ensures r.keys == l.keys && r.values == l.values && l.structs + m.structs <= r.structs
    ensures fresh(Spine(result, DIRECTION_MAP)) && fresh(r.structs - l.structs - m.structs)
    ensures IsDirection(result, r) && IsDirection(self, r)
    ensures forall x :: x in l.keys.elements ==> x in old(l.keys.elements) || x in old(m.keys.elements)
    ensures var v, w := old(DirectionVec(l)), old(DirectionVec(m));
            && (l.values == m.values ==> SharedValues(v, w))
            && DirectionVec(r) == AfterRounds(v, w, |w|, l.values == m.values, false)
            && ((l.values == m.values ==> ReadsFirst(v, w, |w|)) ==> DirectionVec(r) == AddInto(v, w))
            && (Distinct(v) ==> Distinct(DirectionVec(r)))
  {
    hide AddInto, AfterRounds, ReadsFirst, DirectionVec, Leads, GateReals, Denotes;
    result, r := CombineDirections(self, other, false, g, l, m);
    PlainSum(old(DirectionVec(l)), old(DirectionVec(m)), l.values == m.values, false);
    DistinctSum(old(DirectionVec(l)), old(DirectionVec(m)), l.values == m.values, false);
  }

  method SubtractDirections(self: StructInstance, other: StructInstance, ghost g: Graph, ghost l: Layout, ghost m: Layout)
      returns (result: StructInstance, ghost r: Layout)
    requires Denotes(false, StructV(self), g) && IsDirection(self, l) && IsDirection(other, m)
    modifies l.keys, l.values
    ensures r.keys == l.keys && r.values == l.values && l.structs + m.structs <= r.structs
    ensures fresh(Spine(result, DIRECTION_MAP)) && fresh(r.structs - l.structs - m.structs)
    ensures IsDirection(result, r) && IsDirection(self, r)
    ensures forall x :: x in l.keys.elements ==> x in old(l.keys.elements) || x in old(m.keys.elements)
    ensures var v, w := old(DirectionVec(l)), old(DirectionVec(m));
            && (l.values == m.values ==> SharedValues(v, w))
            && DirectionVec(r) == AfterRounds(v, w, |w|, l.values == m.values, true)
            && ((l.values == m.values ==> ReadsFirst(v, w, |w|)) ==> DirectionVec(r) == AddInto(v, Negate(w)))
            && (Distinct(v) ==> Distinct(DirectionVec(r)))
  {
    hide AddInto, AfterRounds, ReadsFirst, DirectionVec, Leads, GateReals, Denotes;
    result, r := CombineDirections(self, other, true, g, l, m);
    PlainSum(old(DirectionVec(l)), old(DirectionVec(m)), l.values == m.values, true);
    DistinctSum(old(DirectionVec(l)), old(DirectionVec(m)), l.values == m.values, true);
  }

  method CombineDirections(self: StructInstance, other: StructInstance, negate: bool,
                           ghost g: Graph, ghost l: Layout, ghost m: Layout)
      returns (result: StructInstance, ghost r: Layout)
    requires Denotes(false, StructV(self), g) && IsDirection(self, l) && IsDirection(other, m)
    modifies l.keys, l.values
    ensures r.keys == l.keys && r.values == l.values && l.structs + m.structs <= r.structs
    ensures fresh(Spine(result, DIRECTION_MAP)) && fresh(r.structs - l.structs - m.structs)
    ensures IsDirection(result, r) && IsDirection(self, r)
    ensures forall x :: x in l.keys.elements ==> x in old(l.keys.elements) || x in old(m.keys.elements)
    ensures var v, w := old(DirectionVec(l)), old(DirectionVec(m));
            && (l.values == m.values ==> SharedValues(v, w))
            && DirectionVec(r) == AfterRounds(v, w, |w|, l.values == m.values, negate)
  {
    hide Denotes, AfterRounds, Leads, GateReals, DirectionVec, Combining, ListsGates, ListsReals;
    NodesAllocated(g);
    ghost var v, w := DirectionVec(l), DirectionVec(m);
    SharedArrays(l, m);
    result, r := CloneDirection(self, g, l);
    ghost var wide := r.(structs := r.structs + m.structs);
    WiderLayout(result, r, wide);
    WiderLayout(self, l, wide);
    r := wide;
    AllListed(m, r.structs);
    StartCombining(r);
    var otherKeys, otherValues := DirectionArrays(other, m);
    var keys, values := DirectionArrays(result, r);
    Combine(keys, values, otherKeys, otherValues, negate, v, w, r.structs);
    EndCombining(r, AfterRounds(v, w, |w|, l.values == m.values, negate));
  }

  lemma PlainSum(v: Vec, w: Vec, shared: bool, negate: bool)
    requires shared ==> SharedValues(v, w)
    ensures (shared ==> ReadsFirst(v, w, |w|)) ==>
              AfterRounds(v, w, |w|, shared, negate) == AddInto(v, SignedVec(w, negate))
  {
    AddIntoEnds(v, w, negate);
    if !shared {
      SeparateRounds(v, w, |w|, negate);
    } else if ReadsFirst(v, w, |w|) {
      SharedRounds(v, w, |w|, negate);
    }
  }

  lemma DistinctSum(v: Vec, w: Vec, shared: bool, negate: bool)
    requires shared ==> SharedValues(v, w)
    ensures Distinct(v) ==> Distinct(AfterRounds(v, w, |w|, shared, negate))
  {
    if Distinct(v) {
      RoundsKeepDistinct(v, w, |w|, shared, negate);
    }
  }

  lemma SharedArrays(l: Layout, m: Layout)
    requires GateReals(l) && GateReals(m)
    ensures l.keys != l.values && (l.values == m.values ==> SharedValues(DirectionVec(l), DirectionVec(m)))
  {
  }

  /** Listing more structs in a layout changes nothing about the directions in it. */
  lemma WiderLayout(d: StructInstance, l: Layout, r: Layout)
    requires IsDirection(d, l) && r.keys == l.keys && r.values == l.values && l.structs <= r.structs
    ensures IsDirection(d, r) && DirectionVec(r) == DirectionVec(l)
  {
  }

  lemma AllListed(m: Layout, structs: set<StructInstance>)
    requires GateReals(m) && m.structs <= structs
    ensures ListsGates(DirectionVec(m), m.keys.elements, structs) && ListsReals(DirectionVec(m), m.values.elements)
  {
  }

  lemma StartCombining(r: Layout)
    requires GateReals(r)
    ensures r.keys != r.values && Combining(r.keys.elements, r.values.elements, r.structs, DirectionVec(r))
  {
  }

  lemma EndCombining(r: Layout, v: Vec)
    requires r.keys != r.values && Combining(r.keys.elements, r.values.elements, r.structs, v)
    ensures GateReals(r) && DirectionVec(r) == v
  {
  }
}
