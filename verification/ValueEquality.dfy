/** What it means for two values of the heap to be equal, put without graphs. */
module ValueEquality {
  import opened RuntimeGraph
  import opened Accessors

  /** v and w cannot be told apart by n accesses: the same types, names, lengths, scalars and
      handles all the way down, where the clone that copies arrays (deep) looks behind Array
      structs. */
  ghost predicate Alike(deep: bool, v: RuntimeValue, w: RuntimeValue, n: nat)
    reads *
    decreases n, 1
  {
    if !v.IsNode() || !w.IsNode() then v == w
    else match v
      case StructV(s) => w.StructV? && AlikeStructs(deep, s, w.s, n)
      case ArrayV(a) => w.ArrayV? && a.elementTypeName == w.a.elementTypeName && AlikeElements(deep, a.elements, w.a.elements, n)
      case TupleV(u) => w.TupleV? && AlikeElements(deep, u.values, w.u.values, n)
  }

  ghost predicate AlikeElements(deep: bool, es: seq<RuntimeValue>, fs: seq<RuntimeValue>, n: nat)
    reads *
    decreases n, 0
  {
    |es| == |fs| && (n > 0 ==> forall i :: 0 <= i < |es| ==> Alike(deep, es[i], fs[i], n - 1))
  }

  ghost predicate AlikeStructs(deep: bool, s: StructInstance, t: StructInstance, n: nat)
    reads *
    decreases n, 0
  {
    && s.typeName == t.typeName && s.fields.Keys == t.fields.Keys
    && (n > 0 ==> forall f :: f in s.fields ==> Alike(deep, s.fields[f], t.fields[f], n - 1))
    && if deep && (s.typeName == "Array" || "Array<" <= s.typeName) && s.nativeHandle.ArrayHandle?
       then t.nativeHandle.ArrayHandle? && (n > 0 ==> Alike(deep, ArrayV(s.nativeHandle.arr), ArrayV(t.nativeHandle.arr), n - 1))
       else t.nativeHandle == s.nativeHandle
  }

  lemma FieldKid(deep: bool, s: StructInstance, g: Graph, f: string)
    requires Denotes(deep, StructV(s), g) && f in s.fields
    ensures g.Node? && Field(f) in g.kids && Denotes(deep, s.fields[f], g.kids[Field(f)])
  {
    hide Denotes, KidsDenote, NativeKid, Named;
    StructKids(deep, s, g);
    NamedAt(s.fields, f);
    KidAt(deep, Named(s.fields) + NativeKid(deep, s), g.kids, Nodes(g), Field(f));
  }

  lemma NativeKidAt(deep: bool, s: StructInstance, g: Graph)
    requires Denotes(deep, StructV(s), g)
    ensures g.Node? && (CopiesHandle(deep, s) <==> Native in g.kids)
    ensures CopiesHandle(deep, s) ==>
              s.nativeHandle.ArrayHandle? && Denotes(deep, ArrayV(s.nativeHandle.arr), g.kids[Native])
  {
    hide Denotes, KidsDenote, Named;
    StructKids(deep, s, g);
    if CopiesHandle(deep, s) {
      KidAt(deep, Named(s.fields) + NativeKid(deep, s), g.kids, Nodes(g), Native);
    }
  }

  lemma ElementKid(deep: bool, es: seq<RuntimeValue>, g: Graph, region: set<object>, i: nat)
    requires g.Node? && KidsDenote(deep, Indexed(es), g.kids, region)
    ensures Index(i) in g.kids <==> i < |es|
    ensures i < |es| ==> Denotes(deep, es[i], g.kids[Index(i)])
  {
    hide Denotes, Indexed;
    IndexedAt(es, i);
    if i < |es| {
      KidAt(deep, Indexed(es), g.kids, region, Index(i));
    }
  }

  lemma ErasedLeaf(v: RuntimeValue, g: Graph, w: RuntimeValue, h: Graph, deep: bool)
    requires Denotes(deep, v, g) && Denotes(deep, w, h) && (!v.IsNode() || !w.IsNode())
    ensures Erase(g) == Erase(h) <==> v == w
  {
    assert v.IsNode() <==> g.Node?;
    assert w.IsNode() <==> h.Node?;
  }

  lemma ErasedNode(g: Graph, h: Graph)
    requires g.Node? && h.Node? && g.tag == h.tag && g.kids.Keys == h.kids.Keys
    requires forall st :: st in g.kids ==> Erase(g.kids[st]) == Erase(h.kids[st])
    ensures Erase(g) == Erase(h)
  {
    assert (map st | st in g.kids :: Erase(g.kids[st])) == (map st | st in h.kids :: Erase(h.kids[st]));
  }

  lemma SameLength(deep: bool, es: seq<RuntimeValue>, g: Graph, fs: seq<RuntimeValue>, h: Graph, a: set<object>, b: set<object>)
    requires g.Node? && h.Node? && g.kids.Keys == h.kids.Keys
    requires KidsDenote(deep, Indexed(es), g.kids, a) && KidsDenote(deep, Indexed(fs), h.kids, b)
    ensures |es| == |fs|
  {
    hide KidsDenote;
    ElementKid(deep, es, g, a, |es|);
    ElementKid(deep, fs, h, b, |es|);
    ElementKid(deep, es, g, a, |fs|);
    ElementKid(deep, fs, h, b, |fs|);
  }

  /** Values of one graph, its nodes forgotten, cannot be told apart. */
  lemma {:induction false} EqualIsAlike(deep: bool, v: RuntimeValue, g: Graph, w: RuntimeValue, h: Graph, n: nat)
    requires Denotes(deep, v, g) && Denotes(deep, w, h) && Erase(g) == Erase(h)
    ensures Alike(deep, v, w, n)
    decreases n, 1
  {
    hide Denotes, Erase, Nodes, KidsDenote, Indexed, AlikeStructs, AlikeElements, KidsOf, TagOf;
    if !v.IsNode() || !w.IsNode() {
      ErasedLeaf(v, g, w, h, deep);
    } else {
      KidsOfDenote(deep, v, g);
      KidsOfDenote(deep, w, h);
      SameKids(g, h);
      SameTags(deep, v, w);
      match v {
        case StructV(s) => EqualStructs(deep, s, g, w.s, h, n);
        case ArrayV(a) => EqualElements(deep, a.elements, g, w.a.elements, h, n);
        case TupleV(u) => EqualElements(deep, u.values, g, w.u.values, h, n);
      }
    }
  }

  lemma SameTags(deep: bool, v: RuntimeValue, w: RuntimeValue)
    requires v.IsNode() && w.IsNode() && TagOf(deep, v) == TagOf(deep, w)
    ensures v.StructV? ==> w.StructV? && v.s.typeName == w.s.typeName
    ensures v.ArrayV? ==> w.ArrayV? && v.a.elementTypeName == w.a.elementTypeName && KidsOf(deep, v) == Indexed(v.a.elements)
    ensures v.ArrayV? ==> KidsOf(deep, w) == Indexed(w.a.elements)
    ensures v.TupleV? ==> w.TupleV? && KidsOf(deep, v) == Indexed(v.u.values) && KidsOf(deep, w) == Indexed(w.u.values)
  {
  }

  lemma {:induction false} EqualElements(deep: bool, es: seq<RuntimeValue>, g: Graph, fs: seq<RuntimeValue>, h: Graph, n: nat)
    requires g.Node? && h.Node? && Erase(g) == Erase(h)
    requires KidsDenote(deep, Indexed(es), g.kids, Nodes(g)) && KidsDenote(deep, Indexed(fs), h.kids, Nodes(h))
    ensures AlikeElements(deep, es, fs, n)
    decreases n, 0
  {
    hide Denotes, Erase, Nodes, KidsDenote, Indexed, Alike;
    SameKids(g, h);
    SameLength(deep, es, g, fs, h, Nodes(g), Nodes(h));
    if n > 0 {
      forall i | 0 <= i < |es|
        ensures Alike(deep, es[i], fs[i], n - 1)
      {
        ElementKid(deep, es, g, Nodes(g), i);
        ElementKid(deep, fs, h, Nodes(h), i);
        EqualIsAlike(deep, es[i], g.kids[Index(i)], fs[i], h.kids[Index(i)], n - 1);
      }
    }
  }

  /** Structs of equal value: field names, and whether and how the handle is looked behind. */
  lemma StructParts(deep: bool, s: StructInstance, g: Graph, t: StructInstance, h: Graph)
    requires Denotes(deep, StructV(s), g) && Denotes(deep, StructV(t), h) && Erase(g) == Erase(h)
    ensures s.typeName == t.typeName && s.fields.Keys == t.fields.Keys
    ensures CopiesHandle(deep, s) == CopiesHandle(deep, t) && (!CopiesHandle(deep, s) ==> s.nativeHandle == t.nativeHandle)
  {
    hide Denotes, Erase, Nodes, KidsDenote, Named;
    StructKids(deep, s, g);
    StructKids(deep, t, h);
    SameKids(g, h);
    NativeKidAt(deep, s, g);
    NativeKidAt(deep, t, h);
    FieldKids(deep, s.fields, NativeKid(deep, s), g.kids, Nodes(g));
    FieldKids(deep, t.fields, NativeKid(deep, t), h.kids, Nodes(h));
    SameFieldNames(s.fields, t.fields);
  }

  lemma SameFieldNames(a: map<string, RuntimeValue>, b: map<string, RuntimeValue>)
    requires Named(a).Keys == Named(b).Keys
    ensures a.Keys == b.Keys
  {
    hide Named;
    forall f
      ensures f in a <==> f in b
    {
      NamedAt(a, f);
      NamedAt(b, f);
    }
  }

  lemma {:induction false} EqualStructs(deep: bool, s: StructInstance, g: Graph, t: StructInstance, h: Graph, n: nat)
    requires Denotes(deep, StructV(s), g) && Denotes(deep, StructV(t), h) && Erase(g) == Erase(h)
    ensures AlikeStructs(deep, s, t, n)
    decreases n, 0
  {
    hide Denotes, Erase, Nodes, Alike;
    StructParts(deep, s, g, t, h);
    NativeKidAt(deep, s, g);
    NativeKidAt(deep, t, h);
    SameKids(g, h);
    if n > 0 {
      forall f | f in s.fields
        ensures Alike(deep, s.fields[f], t.fields[f], n - 1)
      {
        FieldKid(deep, s, g, f);
        FieldKid(deep, t, h, f);
        EqualIsAlike(deep, s.fields[f], g.kids[Field(f)], t.fields[f], h.kids[Field(f)], n - 1);
      }
      if CopiesHandle(deep, s) {
        EqualIsAlike(deep, ArrayV(s.nativeHandle.arr), g.kids[Native], ArrayV(t.nativeHandle.arr), h.kids[Native], n - 1);
      }
    }
  }

  lemma AlikeMore(deep: bool, v: RuntimeValue, w: RuntimeValue, n: nat)
    requires Alike(deep, v, w, n + 1) && v.IsNode() && w.IsNode() && WellTyped(deep, v) && WellTyped(deep, w)
    ensures TagOf(deep, v) == TagOf(deep, w) && KidsOf(deep, v).Keys == KidsOf(deep, w).Keys
    ensures forall st :: st in KidsOf(deep, v) ==> Alike(deep, KidsOf(deep, v)[st], KidsOf(deep, w)[st], n)
  {
    hide Alike;
    OneAccess(deep, v, w, n + 1);
    match v
    case StructV(s) => MoreStructs(deep, s, w.s, n);
    case ArrayV(a) => MoreElements(deep, a.elements, w.a.elements, n);
    case TupleV(u) => MoreElements(deep, u.values, w.u.values, n);
  }

  lemma OneAccess(deep: bool, v: RuntimeValue, w: RuntimeValue, n: nat)
    requires Alike(deep, v, w, n) && v.IsNode() && w.IsNode()
    ensures v.StructV? ==> w.StructV? && AlikeStructs(deep, v.s, w.s, n)
    ensures v.ArrayV? ==>
              w.ArrayV? && v.a.elementTypeName == w.a.elementTypeName && AlikeElements(deep, v.a.elements, w.a.elements, n)
    ensures v.TupleV? ==> w.TupleV? && AlikeElements(deep, v.u.values, w.u.values, n)
  {
  }

  lemma MoreElements(deep: bool, es: seq<RuntimeValue>, fs: seq<RuntimeValue>, n: nat)
    requires AlikeElements(deep, es, fs, n + 1)
    ensures Indexed(es).Keys == Indexed(fs).Keys
    ensures forall st :: st in Indexed(es) ==> Alike(deep, Indexed(es)[st], Indexed(fs)[st], n)
  {
    hide Alike;
    SameIndices(es, fs);
    forall st | st in Indexed(es)
      ensures Alike(deep, Indexed(es)[st], Indexed(fs)[st], n)
    {
      assert Alike(deep, es[st.i], fs[st.i], n);
    }
  }

  lemma MoreStructs(deep: bool, s: StructInstance, t: StructInstance, n: nat)
    requires AlikeStructs(deep, s, t, n + 1) && WellTyped(deep, StructV(s)) && WellTyped(deep, StructV(t))
    ensures TagOf(deep, StructV(s)) == TagOf(deep, StructV(t)) && KidsOf(deep, StructV(s)).Keys == KidsOf(deep, StructV(t)).Keys
    ensures forall st :: st in KidsOf(deep, StructV(s)) ==>
              Alike(deep, KidsOf(deep, StructV(s))[st], KidsOf(deep, StructV(t))[st], n)
  {
    hide Alike;
    SameNames(s.fields, t.fields);
    forall st | st in KidsOf(deep, StructV(s))
      ensures Alike(deep, KidsOf(deep, StructV(s))[st], KidsOf(deep, StructV(t))[st], n)
    {
      if st != Native {
        assert st.name in s.fields;
      }
    }
  }

  /** Values that no number of accesses tells apart are one graph, its nodes forgotten. */
  lemma {:induction false} AlikeIsEqual(deep: bool, v: RuntimeValue, g: Graph, w: RuntimeValue, h: Graph)
    requires Denotes(deep, v, g) && Denotes(deep, w, h) && forall n: nat :: Alike(deep, v, w, n)
    ensures Erase(g) == Erase(h)
    decreases g
  {
    hide Denotes, Erase, Nodes, Alike, KidsOf, TagOf, WellTyped;
    assert Alike(deep, v, w, 0);
    if !v.IsNode() || !w.IsNode() {
      ScalarsAlike(deep, v, w);
      ErasedLeaf(v, g, w, h, deep);
    } else {
      KidsOfDenote(deep, v, g);
      KidsOfDenote(deep, w, h);
      AlikeMore(deep, v, w, 0);
      forall st | st in g.kids
        ensures Erase(g.kids[st]) == Erase(h.kids[st])
      {
        forall n: nat
          ensures Alike(deep, KidsOf(deep, v)[st], KidsOf(deep, w)[st], n)
        {
          AlikeMore(deep, v, w, n);
        }
        AlikeIsEqual(deep, KidsOf(deep, v)[st], g.kids[st], KidsOf(deep, w)[st], h.kids[st]);
      }
      ErasedNode(g, h);
    }
  }

  lemma ScalarsAlike(deep: bool, v: RuntimeValue, w: RuntimeValue)
    requires Alike(deep, v, w, 0) && (!v.IsNode() || !w.IsNode())
    ensures v == w
  {
  }

  /** No number of accesses tells v and w apart. */
  ghost predicate EqualValues(deep: bool, v: RuntimeValue, w: RuntimeValue)
    reads *
  {
    forall n: nat :: Alike(deep, v, w, n)
  }

  /** Equal graphs, nodes forgotten, are equal values: what a clone keeps is every type name,
      field name, length, order, scalar and shared handle, and nothing more is kept. */
  lemma EqualIffAlike(deep: bool, v: RuntimeValue, g: Graph, w: RuntimeValue, h: Graph)
    requires Denotes(deep, v, g) && Denotes(deep, w, h)
    ensures Erase(g) == Erase(h) <==> EqualValues(deep, v, w)
  {
    if Erase(g) == Erase(h) {
      forall n: nat
        ensures Alike(deep, v, w, n)
      {
        EqualIsAlike(deep, v, g, w, h, n);
      }
    }
    hide Erase;
    if EqualValues(deep, v, w) {
      AlikeIsEqual(deep, v, g, w, h);
    }
  }
}
