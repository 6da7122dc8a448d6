/** The runtime's mutable object graph: struct, array and tuple nodes that refer to
    each other through shared pointers, and the recursive clone over it. */
module RuntimeGraph {

  /** A runtime value: a scalar, or a possibly null pointer to a node. */
  datatype RuntimeValue =
    | NilV
    | IntV(i: int)
    | RealV(r: real)
    | BoolV(b: bool)
    | TextV(t: string)
    | StructV(s: StructInstance?)
    | ArrayV(a: ArrayValue?)
    | TupleV(u: TupleValue?)
  {
    /** True of a pointer to an actual node, false of scalars and null pointers. */
    predicate IsNode() {
      (StructV? && s != null) || (ArrayV? && a != null) || (TupleV? && u != null)
    }

    ghost function Id(): object?
    {
      match this
      case StructV(s) => s
      case ArrayV(a) => a
      case TupleV(u) => u
      case _ => null
    }
  }

  /** The native storage of a struct: absent, an array, or a foreign object. */
  datatype Handle = NoHandle | ArrayHandle(arr: ArrayValue?) | ForeignHandle(o: object?)

  class StructInstance {
    const typeName: string
    var nativeHandle: Handle
    var fields: map<string, RuntimeValue>

    constructor (typeName: string)
      ensures this.typeName == typeName && nativeHandle == NoHandle && fields == map[]
    {
      this.typeName := typeName;
      nativeHandle := NoHandle;
      fields := map[];
    }

    constructor Filled(typeName: string, nativeHandle: Handle, fields: map<string, RuntimeValue>)
      ensures this.typeName == typeName && this.nativeHandle == nativeHandle && this.fields == fields
    {
      this.typeName := typeName;
      this.nativeHandle := nativeHandle;
      this.fields := fields;
    }
  }

  class ArrayValue {
    var elementTypeName: string
    var elements: seq<RuntimeValue>

    constructor ()
      ensures elementTypeName == "" && elements == []
    {
      elementTypeName := "";
      elements := [];
    }
  }

  class TupleValue {
    var values: seq<RuntimeValue>

    constructor ()
      ensures values == []
    {
      values := [];
    }
  }

  predicate IsArrayType(typeName: string) {
    typeName == "Array" || "Array<" <= typeName
  }

  /** One access from a node to what it holds. */
  datatype Step = Field(name: string) | Index(i: nat) | Native

  /** What a node holds besides its children. */
  datatype Tag =
    | StructTag(typeName: string, held: Handle)
    | ArrayTag(elementTypeName: string)
    | TupleTag

  /** The unfolding of a value: a finite tree that remembers which node was met at
      every position.  With the identities forgotten it is the value itself. */
  datatype Graph = Leaf(v: RuntimeValue) | Node(id: object?, tag: Tag, kids: map<Step, Graph>)

  /** True if the clone copies the array behind this struct instead of sharing it. */
  predicate CopiesHandle(deep: bool, s: StructInstance)
    reads s
  {
    deep && IsArrayType(s.typeName) && s.nativeHandle != NoHandle
  }

  ghost function TagOf(deep: bool, v: RuntimeValue): Tag
    requires v.IsNode()
    reads v.Id()
  {
    match v
    case StructV(s) => StructTag(s.typeName, if CopiesHandle(deep, s) then NoHandle else s.nativeHandle)
    case ArrayV(a) => ArrayTag(a.elementTypeName)
    case TupleV(u) => TupleTag
  }

  ghost function Indexed(es: seq<RuntimeValue>): map<Step, RuntimeValue> {
    map i | 0 <= i < |es| :: Index(i) := es[i]
  }

  ghost function Named(fields: map<string, RuntimeValue>): map<Step, RuntimeValue> {
    map k | k in fields :: Field(k) := fields[k]
  }

  lemma IndexedGrows(es: seq<RuntimeValue>, c: RuntimeValue)
    ensures Indexed(es + [c]) == Indexed(es)[Index(|es|) := c]
  {
  }

  lemma IndexedAt(es: seq<RuntimeValue>, i: nat)
    ensures Index(i) in Indexed(es) <==> i < |es|
    ensures i < |es| ==> Indexed(es)[Index(i)] == es[i]
  {
  }

  lemma SameIndices(a: seq<RuntimeValue>, b: seq<RuntimeValue>)
    requires |a| == |b|
    ensures Indexed(a).Keys == Indexed(b).Keys
  {
  }

  lemma NamedGrows(fields: map<string, RuntimeValue>, name: string, c: RuntimeValue)
    ensures Named(fields[name := c]) == Named(fields)[Field(name) := c]
  {
  }

  lemma SameNames(a: map<string, RuntimeValue>, b: map<string, RuntimeValue>)
    requires a.Keys == b.Keys
    ensures Named(a).Keys == Named(b).Keys
  {
  }

  lemma NamedAt(fields: map<string, RuntimeValue>, name: string)
    ensures Field(name) in Named(fields) <==> name in fields
    ensures name in fields ==> Named(fields)[Field(name)] == fields[name]
  {
  }

  /** The array behind a struct, as a child, when the clone copies it. */
  ghost function NativeKid(deep: bool, s: StructInstance): map<Step, RuntimeValue>
    reads s
  {
    if CopiesHandle(deep, s) && s.nativeHandle.ArrayHandle? then map[Native := ArrayV(s.nativeHandle.arr)] else map[]
  }

  ghost function KidsOf(deep: bool, v: RuntimeValue): map<Step, RuntimeValue>
    requires v.IsNode()
    reads v.Id()
  {
    match v
    case StructV(s) => Named(s.fields) + NativeKid(deep, s)
    case ArrayV(a) => Indexed(a.elements)
    case TupleV(u) => Indexed(u.values)
  }

  /** An array struct's handle must really be an array: the code casts it unchecked. */
  ghost predicate WellTyped(deep: bool, v: RuntimeValue)
    requires v.IsNode()
    reads v.Id()
  {
    v.StructV? && CopiesHandle(deep, v.s) ==> v.s.nativeHandle.ArrayHandle?
  }

  ghost function Nodes(g: Graph): set<object> {
    match g
    case Leaf(_) => {}
    case Node(id, tag, kids) =>
      (if id == null then {} else {id}) + set st, o | st in kids && o in Nodes(kids[st]) :: o
  }

  /** Value v unfolds, in the current heap, to g. */
  ghost predicate Denotes(deep: bool, v: RuntimeValue, g: Graph)
    reads Nodes(g)
    decreases g
  {
    match g
    case Leaf(w) => v == w && !v.IsNode()
    case Node(id, tag, kids) =>
      && v.IsNode() && v.Id() == id && id in Nodes(g)
      && WellTyped(deep, v)
      && TagOf(deep, v) == tag
      && KidsOf(deep, v).Keys == kids.Keys
      && forall st :: st in kids ==> Denotes(deep, KidsOf(deep, v)[st], kids[st])
  }

  /** The value of a graph: the graph without its node identities. */
  ghost function Erase(g: Graph): Graph {
    match g
    case Leaf(_) => g
    case Node(_, tag, kids) => Node(null, tag, map st | st in kids :: Erase(kids[st]))
  }

  /** No node is met twice: nothing inside the graph is shared. */
  ghost predicate Separated(g: Graph) {
    match g
    case Leaf(_) => true
    case Node(id, _, kids) =>
      && id != null
      && (forall st :: st in kids ==> Separated(kids[st]) && id !in Nodes(kids[st]))
      && (forall st, st' :: st in kids && st' in kids && st != st' ==> Nodes(kids[st]) !! Nodes(kids[st']))
  }

  // ---------------------------------------------------------------------------
  // Clone
  // ---------------------------------------------------------------------------

  /** h is a private copy of g: the same value, on nodes of its own. */
  ghost predicate CopyOf(h: Graph, g: Graph) {
    Erase(h) == Erase(g) && Separated(h)
  }

  /** Copies of some of a node's children, pairwise apart and inside region. */
  ghost predicate KidsCopied(hs: map<Step, Graph>, kids: map<Step, Graph>, region: set<object>) {
    && hs.Keys <= kids.Keys
    && (forall st :: st in hs ==> CopyOf(hs[st], kids[st]) && Nodes(hs[st]) <= region)
    && (forall st, st' :: st in hs && st' in hs && st != st' ==> Nodes(hs[st]) !! Nodes(hs[st']))
  }

  /** The children vals unfold to the graphs hs. */
  ghost predicate KidsDenote(deep: bool, vals: map<Step, RuntimeValue>, hs: map<Step, Graph>, region: set<object>)
    reads region
  {
    vals.Keys == hs.Keys && forall st :: st in hs ==> Nodes(hs[st]) <= region && Denotes(deep, vals[st], hs[st])
  }

  lemma AddKidCopied(hs: map<Step, Graph>, kids: map<Step, Graph>, region: set<object>, st: Step, h: Graph)
    requires KidsCopied(hs, kids, region)
    requires st in kids && st !in hs && CopyOf(h, kids[st]) && Nodes(h) !! region
    ensures KidsCopied(hs[st := h], kids, region + Nodes(h))
  {
    var hs' := hs[st := h];
    forall a, b | a in hs' && b in hs' && a != b
      ensures Nodes(hs'[a]) !! Nodes(hs'[b])
    {
      if a == st {
        assert Nodes(hs[b]) <= region;
      } else if b == st {
        assert Nodes(hs[a]) <= region;
      }
    }
  }

  lemma AddKidDenotes(deep: bool, vals: map<Step, RuntimeValue>, hs: map<Step, Graph>, region: set<object>,
                      st: Step, c: RuntimeValue, h: Graph)
    requires KidsDenote(deep, vals, hs, region) && Denotes(deep, c, h)
    ensures KidsDenote(deep, vals[st := c], hs[st := h], region + Nodes(h))
  {
  }

  lemma JoinKids(deep: bool, vs: map<Step, RuntimeValue>, hs: map<Step, Graph>, region: set<object>,
                 vs': map<Step, RuntimeValue>, hs': map<Step, Graph>, region': set<object>, kids: map<Step, Graph>)
    requires KidsCopied(hs, kids, region) && KidsDenote(deep, vs, hs, region)
    requires KidsCopied(hs', kids, region') && KidsDenote(deep, vs', hs', region')
    requires region !! region' && hs.Keys !! hs'.Keys
    ensures KidsCopied(hs + hs', kids, region + region') && KidsDenote(deep, vs + vs', hs + hs', region + region')
  {
    forall a, b | a in hs + hs' && b in hs + hs' && a != b
      ensures Nodes((hs + hs')[a]) !! Nodes((hs + hs')[b])
    {
      assert Nodes((hs + hs')[a]) <= if a in hs' then region' else region;
      assert Nodes((hs + hs')[b]) <= if b in hs' then region' else region;
    }
  }

  lemma FinishCopy(deep: bool, v: RuntimeValue, vals: map<Step, RuntimeValue>, hs: map<Step, Graph>, g: Graph,
                   region: set<object>)
    requires v.IsNode() && g.Node? && v.Id() !in region && WellTyped(deep, v)
    requires KidsOf(deep, v) == vals && TagOf(deep, v) == g.tag
    requires KidsCopied(hs, g.kids, region) && hs.Keys == g.kids.Keys && KidsDenote(deep, vals, hs, region)
    ensures var h := Node(v.Id(), g.tag, hs); Denotes(deep, v, h) && CopyOf(h, g) && Nodes(h) <= region + {v.Id()}
  {
    assert (map st | st in hs :: Erase(hs[st])) == (map st | st in g.kids :: Erase(g.kids[st]));
  }

  /** The children of a node that unfolds to g unfold to the children of g. */
  lemma KidsOfDenote(deep: bool, v: RuntimeValue, g: Graph)
    requires v.IsNode() && Denotes(deep, v, g)
    ensures g.Node? && KidsDenote(deep, KidsOf(deep, v), g.kids, Nodes(g))
    ensures v.Id() in Nodes(g) && WellTyped(deep, v) && TagOf(deep, v) == g.tag && KidsOf(deep, v).Keys == g.kids.Keys
  {
  }

  lemma KidAt(deep: bool, vals: map<Step, RuntimeValue>, hs: map<Step, Graph>, region: set<object>, st: Step)
    requires KidsDenote(deep, vals, hs, region) && st in vals
    ensures st in hs && Denotes(deep, vals[st], hs[st]) && Nodes(hs[st]) <= region
  {
  }

  lemma NoKids(deep: bool, kids: map<Step, Graph>)
    ensures KidsCopied(map[], kids, {}) && KidsDenote(deep, map[], map[], {})
    ensures Named(map[]) == map[] && Indexed([]) == map[]
  {
  }

  lemma OneKid(deep: bool, kids: map<Step, Graph>, st: Step, c: RuntimeValue, h: Graph)
    requires st in kids && CopyOf(h, kids[st]) && Denotes(deep, c, h)
    ensures KidsCopied(map[st := h], kids, Nodes(h)) && KidsDenote(deep, map[st := c], map[st := h], Nodes(h))
  {
    hide Denotes, Nodes, CopyOf;
  }

  lemma StructKids(deep: bool, s: StructInstance, g: Graph)
    requires Denotes(deep, StructV(s), g)
    ensures g.Node? && KidsDenote(deep, Named(s.fields) + NativeKid(deep, s), g.kids, Nodes(g))
    ensures WellTyped(deep, StructV(s)) && TagOf(deep, StructV(s)) == g.tag
    ensures NativeKid(deep, s).Keys == g.kids.Keys * {Native} && s in Nodes(g)
  {
    assert KidsOf(deep, StructV(s)) == Named(s.fields) + NativeKid(deep, s);
  }

  /** A struct with the copied or shared handle of s has the tag of s. */
  lemma StructCopied(deep: bool, s: StructInstance, r: StructInstance, native: map<Step, RuntimeValue>)
    requires r.typeName == s.typeName && WellTyped(deep, StructV(s))
    requires if CopiesHandle(deep, s) then r.nativeHandle.ArrayHandle? && native == map[Native := ArrayV(r.nativeHandle.arr)]
             else r.nativeHandle == s.nativeHandle && native == map[]
    ensures WellTyped(deep, StructV(r)) && TagOf(deep, StructV(r)) == TagOf(deep, StructV(s))
    ensures KidsOf(deep, StructV(r)) == Named(r.fields) + native
  {
  }

  lemma KidsDenoteKeys(deep: bool, vals: map<Step, RuntimeValue>, hs: map<Step, Graph>, region: set<object>)
    requires KidsDenote(deep, vals, hs, region)
    ensures vals.Keys == hs.Keys
  {
  }

  lemma FieldKids(deep: bool, fields: map<string, RuntimeValue>, native: map<Step, RuntimeValue>,
                  kids: map<Step, Graph>, source: set<object>)
    requires native.Keys <= {Native} && KidsDenote(deep, Named(fields) + native, kids, source)
    ensures Named(fields).Keys == kids.Keys - {Native}
  {
    assert (Named(fields) + native).Keys == kids.Keys;
  }

  lemma ScalarDenotes(deep: bool, v: RuntimeValue, g: Graph)
    requires !v.IsNode() && Denotes(deep, v, g)
    ensures CopyOf(g, g) && Nodes(g) == {}
  {
  }

  lemma NodesAllocated(g: Graph)
    ensures forall o :: o in Nodes(g) ==> allocated(o)
  {
    if g.Node? {
      forall st | st in g.kids {
        NodesAllocated(g.kids[st]);
      }
    }
  }

  method CloneValue(deep: bool, v: RuntimeValue, ghost g: Graph) returns (r: RuntimeValue, ghost h: Graph)
    requires Denotes(deep, v, g)
    ensures Denotes(deep, r, h) && CopyOf(h, g) && fresh(Nodes(h))
    decreases g, 4
  {
    hide Denotes, Erase, Separated, Nodes, KidsCopied, KidsDenote, CopyOf;
    match v
    case StructV(s) =>
      var c;
      c, h := CloneStruct(deep, s, g);
      r := StructV(c);
    case ArrayV(a) =>
      var c;
      c, h := CloneArray(deep, a, g);
      r := ArrayV(c);
    case TupleV(u) =>
      var c;
      c, h := CloneTuple(deep, u, g);
      r := TupleV(c);
    case _ =>
      ScalarDenotes(deep, v, g);
      r, h := v, g;
  }

  /** The loop that clones the elements of an array or a tuple in order. */
  method CloneElements(deep: bool, es: seq<RuntimeValue>, ghost g: Graph, ghost source: set<object>)
      returns (out: seq<RuntimeValue>, ghost hs: map<Step, Graph>, ghost region: set<object>)
    requires g.Node? && KidsDenote(deep, Indexed(es), g.kids, source)
    ensures KidsCopied(hs, g.kids, region) && hs.Keys == g.kids.Keys
    ensures KidsDenote(deep, Indexed(out), hs, region) && fresh(region) && |out| == |es|
    decreases g, 0
  {
    hide Denotes, Erase, Separated, Nodes, KidsCopied, KidsDenote, CopyOf, Indexed;
    KidsDenoteKeys(deep, Indexed(es), g.kids, source);
    NoKids(deep, g.kids);
    out, hs, region := [], map[], {};
    for i := 0 to |es|
      invariant KidsDenote(deep, Indexed(es), g.kids, source)
      invariant |out| == i && fresh(region) && hs.Keys == Indexed(out).Keys
      invariant KidsCopied(hs, g.kids, region) && KidsDenote(deep, Indexed(out), hs, region)
    {
      IndexedAt(es, i);
      IndexedAt(out, i);
      KidAt(deep, Indexed(es), g.kids, source, Index(i));
      var c, hc := CloneValue(deep, es[i], g.kids[Index(i)]);
      AddKidCopied(hs, g.kids, region, Index(i), hc);
      AddKidDenotes(deep, Indexed(out), hs, region, Index(i), c, hc);
      IndexedGrows(out, c);
      assert KidsDenote(deep, Indexed(out + [c]), hs[Index(i) := hc], region + Nodes(hc));
      hs, region := hs[Index(i) := hc], region + Nodes(hc);
      out := out + [c];
    }
    SameIndices(out, es);
  }

  method CloneArray(deep: bool, src: ArrayValue?, ghost g: Graph) returns (result: ArrayValue?, ghost h: Graph)
    requires Denotes(deep, ArrayV(src), g)
    ensures Denotes(deep, ArrayV(result), h) && CopyOf(h, g) && fresh(Nodes(h))
    ensures result == null <==> src == null
    ensures src != null ==> result.elementTypeName == src.elementTypeName && |result.elements| == |src.elements|
    decreases g, 1
  {
    hide Denotes, Erase, Separated, Nodes, KidsCopied, KidsDenote, CopyOf;
    if src == null {
      ScalarDenotes(deep, ArrayV(src), g);
      return null, g;
    }
    KidsOfDenote(deep, ArrayV(src), g);
    var es, hs, region := CloneElements(deep, src.elements, g, Nodes(g));
    result := new ArrayValue();
    result.elementTypeName := src.elementTypeName;
    result.elements := es;
    FinishCopy(deep, ArrayV(result), Indexed(es), hs, g, region);
    h := Node(result, g.tag, hs);
  }

  method CloneTuple(deep: bool, src: TupleValue?, ghost g: Graph) returns (result: TupleValue?, ghost h: Graph)
    requires Denotes(deep, TupleV(src), g)
    ensures Denotes(deep, TupleV(result), h) && CopyOf(h, g) && fresh(Nodes(h))
    ensures result == null <==> src == null
    ensures src != null ==> |result.values| == |src.values|
    decreases g, 1
  {
    hide Denotes, Erase, Separated, Nodes, KidsCopied, KidsDenote, CopyOf;
    if src == null {
      ScalarDenotes(deep, TupleV(src), g);
      return null, g;
    }
    KidsOfDenote(deep, TupleV(src), g);
    var es, hs, region := CloneElements(deep, src.values, g, Nodes(g));
    result := new TupleValue();
    result.values := es;
    FinishCopy(deep, TupleV(result), Indexed(es), hs, g, region);
    h := Node(result, g.tag, hs);
  }

  /** The loop that clones the fields of a struct, in any order. */
  method CloneFields(deep: bool, fields: map<string, RuntimeValue>, ghost native: map<Step, RuntimeValue>,
                     ghost g: Graph, ghost source: set<object>)
      returns (out: map<string, RuntimeValue>, ghost hs: map<Step, Graph>, ghost region: set<object>)
    requires g.Node? && native.Keys <= {Native} && KidsDenote(deep, Named(fields) + native, g.kids, source)
    ensures KidsCopied(hs, g.kids, region) && hs.Keys == g.kids.Keys - {Native}
    ensures out.Keys == fields.Keys && KidsDenote(deep, Named(out), hs, region) && fresh(region)
    decreases g, 0
  {
    hide Denotes, Erase, Separated, Nodes, KidsCopied, KidsDenote, CopyOf, Named;
    ghost var vals := Named(fields) + native;
    FieldKids(deep, fields, native, g.kids, source);
    NoKids(deep, g.kids);
    out, hs, region := map[], map[], {};
    var names := fields.Keys;
    while names != {}
      invariant KidsDenote(deep, vals, g.kids, source)
      invariant names <= fields.Keys && out.Keys == fields.Keys - names && fresh(region)
      invariant hs.Keys == Named(out).Keys
      invariant KidsCopied(hs, g.kids, region) && KidsDenote(deep, Named(out), hs, region)
      decreases names
    {
      var name :| name in names;
      NamedAt(fields, name);
      NamedAt(out, name);
      KidAt(deep, vals, g.kids, source, Field(name));
      var c, hc := CloneValue(deep, fields[name], g.kids[Field(name)]);
      AddKidCopied(hs, g.kids, region, Field(name), hc);
      AddKidDenotes(deep, Named(out), hs, region, Field(name), c, hc);
      NamedGrows(out, name, c);
      hs, region := hs[Field(name) := hc], region + Nodes(hc);
      out := out[name := c];
      names := names - {name};
    }
    SameNames(out, fields);
  }

  /** The storage behind a struct: copied if it is an array and deep, else shared. */
  method CloneHandle(deep: bool, src: StructInstance, ghost g: Graph)
      returns (handle: Handle, ghost native: map<Step, RuntimeValue>, ghost ns: map<Step, Graph>, ghost region: set<object>)
    requires Denotes(deep, StructV(src), g)
    ensures CopiesHandle(deep, src) ==> handle.ArrayHandle? && native == map[Native := ArrayV(handle.arr)]
    ensures !CopiesHandle(deep, src) ==> handle == src.nativeHandle && native == map[]
    ensures g.Node? && ns.Keys == native.Keys == g.kids.Keys * {Native}
    ensures KidsCopied(ns, g.kids, region) && KidsDenote(deep, native, ns, region) && fresh(region)
    decreases g, 2
  {
    hide Denotes, Erase, Separated, Nodes, KidsCopied, KidsDenote, CopyOf, Named;
    StructKids(deep, src, g);
    if src.nativeHandle != NoHandle && deep && IsArrayType(src.typeName) {
      KidAt(deep, Named(src.fields) + NativeKid(deep, src), g.kids, Nodes(g), Native);
      var copied, hc := CloneArray(deep, src.nativeHandle.arr, g.kids[Native]);
      OneKid(deep, g.kids, Native, ArrayV(copied), hc);
      NodesAllocated(hc);
      handle, native, ns, region := ArrayHandle(copied), map[Native := ArrayV(copied)], map[Native := hc], Nodes(hc);
    } else {
      NoKids(deep, g.kids);
      handle, native, ns, region := src.nativeHandle, map[], map[], {};
    }
  }

  /** With deep the array behind an Array struct is copied (control axes); without it
      every native handle is shared (directions). */
  method CloneStruct(deep: bool, src: StructInstance?, ghost g: Graph) returns (result: StructInstance?, ghost h: Graph)
    requires Denotes(deep, StructV(src), g)
    ensures Denotes(deep, StructV(result), h) && CopyOf(h, g) && fresh(Nodes(h))
    ensures result == null <==> src == null
    ensures src != null ==> result.typeName == src.typeName && result.fields.Keys == src.fields.Keys
    decreases g, 3
  {
    hide Denotes, Erase, Separated, Nodes, KidsCopied, KidsDenote, CopyOf, Named, NativeKid, KidsOf;
    if src == null {
      ScalarDenotes(deep, StructV(src), g);
      return null, g;
    }
    StructKids(deep, src, g);
    NodesAllocated(g);
    var handle, native, ns, nr := CloneHandle(deep, src, g);
    var fields, fs, fr := CloneFields(deep, src.fields, NativeKid(deep, src), g, Nodes(g));
    JoinKids(deep, Named(fields), fs, fr, native, ns, nr, g.kids);
    result := new StructInstance.Filled(src.typeName, handle, fields);
    StructCopied(deep, src, result, native);
    FinishCopy(deep, StructV(result), Named(fields) + native, fs + ns, g, fr + nr);
    h := Node(result, g.tag, fs + ns);
  }

  // ---------------------------------------------------------------------------
  // Paths and in-place updates
  // ---------------------------------------------------------------------------

  /** Path p leads from the root of g to a node. */
  ghost predicate Reaches(g: Graph, p: seq<Step>) {
    g.Node? && (p == [] || (p[0] in g.kids && Reaches(g.kids[p[0]], p[1..])))
  }

  ghost function Sub(g: Graph, p: seq<Step>): (r: Graph)
    requires Reaches(g, p)
    ensures r.Node?
  {
    if p == [] then g else Sub(g.kids[p[0]], p[1..])
  }

  /** g with the child x in field f of the node at path p. */
  ghost function Put(g: Graph, p: seq<Step>, f: string, x: Graph): Graph
    requires Reaches(g, p)
  {
    if p == [] then g.(kids := g.kids[Field(f) := x])
    else g.(kids := g.kids[p[0] := Put(g.kids[p[0]], p[1..], f, x)])
  }

  lemma {:induction false} SubInNodes(g: Graph, p: seq<Step>)
    requires Reaches(g, p)
    ensures Nodes(Sub(g, p)) <= Nodes(g)
  {
    if p != [] {
      SubInNodes(g.kids[p[0]], p[1..]);
    }
  }

  /** Everything that makes v unfold to g, except field f of node n at path p; vals is
      what n's children were. */
  ghost predicate Around(deep: bool, v: RuntimeValue, g: Graph, p: seq<Step>, n: StructInstance, f: string,
                         vals: map<Step, RuntimeValue>)
    requires Reaches(g, p)
    reads Nodes(g) - {n}
    decreases p
  {
    if p == [] then
      && v == StructV(n) && g.id == n && vals.Keys == g.kids.Keys
      && forall st :: st in g.kids && st != Field(f) ==> n !in Nodes(g.kids[st]) && Denotes(deep, vals[st], g.kids[st])
    else
      && v.IsNode() && v.Id() == g.id && g.id != n && g.id in Nodes(g)
      && WellTyped(deep, v) && TagOf(deep, v) == g.tag && KidsOf(deep, v).Keys == g.kids.Keys
      && (forall st :: st in g.kids && st != p[0] ==> n !in Nodes(g.kids[st]) && Denotes(deep, KidsOf(deep, v)[st], g.kids[st]))
      && Around(deep, KidsOf(deep, v)[p[0]], g.kids[p[0]], p[1..], n, f, vals)
  }

  lemma {:induction false} OpenAround(deep: bool, v: RuntimeValue, g: Graph, p: seq<Step>, n: StructInstance, f: string)
    requires Denotes(deep, v, g) && Separated(g)
    requires Reaches(g, p) && Sub(g, p).id == n
    ensures Around(deep, v, g, p, n, f, KidsOf(deep, StructV(n)))
    ensures WellTyped(deep, StructV(n)) && TagOf(deep, StructV(n)) == Sub(g, p).tag
    decreases p
  {
    if p == [] {
      KidsOfDenote(deep, v, g);
      assert v == StructV(n);
    } else {
      SubInNodes(g.kids[p[0]], p[1..]);
      KidsOfDenote(deep, v, g);
      OpenAround(deep, KidsOf(deep, v)[p[0]], g.kids[p[0]], p[1..], n, f);
    }
  }

  lemma CloseNode(deep: bool, n: StructInstance, g: Graph, f: string, vals: map<Step, RuntimeValue>, x: RuntimeValue)
    requires g.Node? && Field(f) in g.kids && !x.IsNode() && Around(deep, StructV(n), g, [], n, f, vals)
    requires WellTyped(deep, StructV(n)) && TagOf(deep, StructV(n)) == g.tag
    requires KidsOf(deep, StructV(n)) == vals[Field(f) := x]
    ensures Denotes(deep, StructV(n), g.(kids := g.kids[Field(f) := Leaf(x)]))
  {
  }

  lemma FieldWritten(deep: bool, n: StructInstance, fields: map<string, RuntimeValue>, native: map<Step, RuntimeValue>,
                     f: string, x: RuntimeValue)
    requires n.fields == fields[f := x] && NativeKid(deep, n) == native
    ensures KidsOf(deep, StructV(n)) == (Named(fields) + native)[Field(f) := x]
  {
  }

  lemma CloseStep(deep: bool, v: RuntimeValue, g: Graph, p: seq<Step>, n: StructInstance, f: string,
                  vals: map<Step, RuntimeValue>, h: Graph)
    requires p != [] && Reaches(g, p) && Around(deep, v, g, p, n, f, vals)
    requires v.IsNode() && p[0] in KidsOf(deep, v) && Denotes(deep, KidsOf(deep, v)[p[0]], h)
    ensures Denotes(deep, v, g.(kids := g.kids[p[0] := h]))
  {
  }

  lemma AroundStep(deep: bool, v: RuntimeValue, g: Graph, p: seq<Step>, n: StructInstance, f: string,
                   vals: map<Step, RuntimeValue>)
    requires p != [] && Reaches(g, p) && Around(deep, v, g, p, n, f, vals)
    ensures v.IsNode() && p[0] in KidsOf(deep, v)
    ensures Around(deep, KidsOf(deep, v)[p[0]], g.kids[p[0]], p[1..], n, f, vals)
  {
  }

  lemma {:induction false} CloseAround(deep: bool, v: RuntimeValue, g: Graph, p: seq<Step>, n: StructInstance, f: string,
                                       vals: map<Step, RuntimeValue>, x: RuntimeValue)
    requires Reaches(g, p) && Field(f) in Sub(g, p).kids && !x.IsNode()
    requires Around(deep, v, g, p, n, f, vals)
    requires WellTyped(deep, StructV(n)) && TagOf(deep, StructV(n)) == Sub(g, p).tag
    requires KidsOf(deep, StructV(n)) == vals[Field(f) := x]
    ensures Denotes(deep, v, Put(g, p, f, Leaf(x)))
    decreases p
  {
    if p == [] {
      AroundRoot(deep, v, g, n, f, vals);
      hide Denotes, Nodes, Around;
      CloseNode(deep, n, g, f, vals, x);
    } else {
      hide Denotes, Nodes, Around, KidsOf, TagOf, WellTyped;
      AroundStep(deep, v, g, p, n, f, vals);
      CloseAround(deep, KidsOf(deep, v)[p[0]], g.kids[p[0]], p[1..], n, f, vals, x);
      CloseStep(deep, v, g, p, n, f, vals, Put(g.kids[p[0]], p[1..], f, Leaf(x)));
    }
  }

  lemma AroundRoot(deep: bool, v: RuntimeValue, g: Graph, n: StructInstance, f: string, vals: map<Step, RuntimeValue>)
    requires g.Node? && Around(deep, v, g, [], n, f, vals)
    ensures v == StructV(n)
  {
  }

  /** v unfolds to the unshared graph g, and n is its node at path p, with a field f. */
  ghost predicate Writable(deep: bool, v: RuntimeValue, g: Graph, p: seq<Step>, n: StructInstance, f: string)
    reads Nodes(g)
  {
    Denotes(deep, v, g) && Separated(g) && Reaches(g, p) && Sub(g, p).id == n && Field(f) in Sub(g, p).kids
  }

  /** Writing a scalar into an existing field of a node of an unshared graph changes the
      unfolded value exactly there: at that field of that node, and nowhere else. */
  method SetField(n: StructInstance, f: string, x: RuntimeValue,
                  ghost tracked: bool, ghost deep: bool, ghost v: RuntimeValue, ghost g: Graph, ghost p: seq<Step>)
    requires tracked ==> Writable(deep, v, g, p, n, f) && !x.IsNode()
    modifies n
    ensures n.fields == old(n.fields)[f := x] && n.nativeHandle == old(n.nativeHandle)
    ensures tracked ==> Reaches(g, p) && Denotes(deep, v, Put(g, p, f, Leaf(x)))
  {
    hide Denotes, Separated, Nodes, Around, Named, Reaches, Sub, Put;
    NodesAllocated(g);
    ghost var fields, native := n.fields, NativeKid(deep, n);
    if tracked {
      OpenAround(deep, v, g, p, n, f);
    }
    n.fields := n.fields[f := x];
    if tracked {
      FieldWritten(deep, n, fields, native, f, x);
      CloseAround(deep, v, g, p, n, f, Named(fields) + native, x);
    }
  }
}
