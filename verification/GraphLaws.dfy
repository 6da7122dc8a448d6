/** What unfolding and cloning mean: which heaps unfold, that a value has one unfolding,
    and that a copy shares nothing. */
module GraphLaws {
  import opened RuntimeGraph
  import opened ValueEquality

  /** A heap value has at most one unfolding, so speaking of its value makes sense. */
  lemma {:induction false} UnfoldingIsUnique(deep: bool, v: RuntimeValue, g: Graph, h: Graph)
    requires Denotes(deep, v, g) && Denotes(deep, v, h)
    ensures g == h
    decreases g
  {
    if g.Node? && h.Node? {
      forall st | st in g.kids
        ensures st in h.kids && g.kids[st] == h.kids[st]
      {
        UnfoldingIsUnique(deep, KidsOf(deep, v)[st], g.kids[st], h.kids[st]);
      }
      assert g.kids == h.kids;
    }
  }

  /** The objects of a set of node values. */
  ghost function Ids(vs: set<RuntimeValue>): set<object?> {
    set v | v in vs :: v.Id()
  }

  /** The children of a node are among vs and rank below it. */
  ghost predicate Ranked(deep: bool, v: RuntimeValue, vs: set<RuntimeValue>, rank: map<RuntimeValue, nat>)
    requires v.IsNode()
    reads v.Id()
  {
    && v in rank && WellTyped(deep, v)
    && forall st :: st in KidsOf(deep, v) && KidsOf(deep, v)[st].IsNode() ==> RanksBelow(KidsOf(deep, v)[st], v, vs, rank)
  }

  ghost predicate RanksBelow(w: RuntimeValue, v: RuntimeValue, vs: set<RuntimeValue>, rank: map<RuntimeValue, nat>)
    requires v in rank
  {
    w in vs && w in rank && rank[w] < rank[v]
  }

  /** The nodes vs refer only to one another, and never back up: every child has a
      smaller rank than its parent. */
  ghost predicate Acyclic(deep: bool, vs: set<RuntimeValue>, rank: map<RuntimeValue, nat>)
    reads Ids(vs)
  {
    forall v :: v in vs ==> v.IsNode() && v.Id() in Ids(vs) && Ranked(deep, v, vs, rank)
  }

  /** An array may be given other elements, as long as they rank below it. */
  lemma ArrayRanked(deep: bool, a: ArrayValue, vs: set<RuntimeValue>, rank: map<RuntimeValue, nat>)
    requires ArrayV(a) in rank
    requires forall k :: 0 <= k < |a.elements| && a.elements[k].IsNode() ==> RanksBelow(a.elements[k], ArrayV(a), vs, rank)
    ensures Ranked(deep, ArrayV(a), vs, rank)
  {
    hide RanksBelow;
  }

  lemma OpenAcyclic(deep: bool, vs: set<RuntimeValue>, rank: map<RuntimeValue, nat>)
    requires Acyclic(deep, vs, rank)
    ensures forall v :: v in vs ==> v.IsNode() && v in rank && v.Id() in Ids(vs) && Ranked(deep, v, vs, rank)
  {
  }

  lemma ElementsBelow(deep: bool, a: ArrayValue, vs: set<RuntimeValue>, rank: map<RuntimeValue, nat>)
    requires Ranked(deep, ArrayV(a), vs, rank)
    ensures forall x :: x in a.elements && x.IsNode() ==> RanksBelow(x, ArrayV(a), vs, rank)
  {
    hide RanksBelow;
    forall x | x in a.elements && x.IsNode()
      ensures RanksBelow(x, ArrayV(a), vs, rank)
    {
      var k :| 0 <= k < |a.elements| && a.elements[k] == x;
      assert KidsOf(deep, ArrayV(a))[Index(k)] == x;
    }
  }

  lemma IdsAllocated(vs: set<RuntimeValue>)
    ensures forall v :: v in vs ==> v.Id() == null || allocated(v.Id())
    ensures forall o :: o in Ids(vs) ==> o == null || allocated(o)
  {
  }

  /** Some arrays of an acyclic graph have been given other elements, of lower rank. */
  lemma CloseAcyclic(deep: bool, vs: set<RuntimeValue>, rank: map<RuntimeValue, nat>, arrays: set<ArrayValue>)
    requires forall v :: v in vs ==> v.IsNode() && v in rank && v.Id() in Ids(vs)
    requires forall v :: v in vs && v.Id() !in arrays ==> Ranked(deep, v, vs, rank)
    requires forall a :: a in arrays && ArrayV(a) in vs ==>
               forall k :: 0 <= k < |a.elements| && a.elements[k].IsNode() ==> RanksBelow(a.elements[k], ArrayV(a), vs, rank)
    ensures Acyclic(deep, vs, rank)
  {
    hide Ranked, RanksBelow;
    forall v | v in vs
      ensures Ranked(deep, v, vs, rank)
    {
      if a :| a in arrays && v == ArrayV(a) {
        ArrayRanked(deep, a, vs, rank);
      }
    }
  }

  ghost function Unfold(deep: bool, v: RuntimeValue, vs: set<RuntimeValue>, rank: map<RuntimeValue, nat>): Graph
    requires Acyclic(deep, vs, rank) && (v.IsNode() ==> v in vs)
    reads Ids(vs)
    decreases if v.IsNode() then rank[v] + 1 else 0
  {
    if !v.IsNode() then Leaf(v)
    else Node(v.Id(), TagOf(deep, v), map st | st in KidsOf(deep, v) :: Unfold(deep, KidsOf(deep, v)[st], vs, rank))
  }

  /** Every value of an acyclic graph unfolds. */
  lemma {:induction false} AcyclicUnfolds(deep: bool, v: RuntimeValue, vs: set<RuntimeValue>, rank: map<RuntimeValue, nat>)
    requires Acyclic(deep, vs, rank) && (v.IsNode() ==> v in vs)
    ensures Denotes(deep, v, Unfold(deep, v, vs, rank)) && Nodes(Unfold(deep, v, vs, rank)) <= Ids(vs)
    decreases if v.IsNode() then rank[v] + 1 else 0
  {
    if v.IsNode() {
      forall st | st in KidsOf(deep, v)
        ensures Denotes(deep, KidsOf(deep, v)[st], Unfold(deep, KidsOf(deep, v)[st], vs, rank))
        ensures Nodes(Unfold(deep, KidsOf(deep, v)[st], vs, rank)) <= Ids(vs)
      {
        AcyclicUnfolds(deep, KidsOf(deep, v)[st], vs, rank);
      }
    }
  }

  /** Clone on an acyclic graph: it ends, with the value it started from, on new nodes of
      its own; and the graph it read is as it was. */
  method CloneAcyclic(deep: bool, v: RuntimeValue, ghost vs: set<RuntimeValue>, ghost rank: map<RuntimeValue, nat>)
      returns (r: RuntimeValue, ghost h: Graph)
    requires Acyclic(deep, vs, rank) && (v.IsNode() ==> v in vs)
    ensures Denotes(deep, r, h) && Erase(h) == Erase(old(Unfold(deep, v, vs, rank)))
    ensures Separated(h) && fresh(Nodes(h)) && EqualValues(deep, r, v)
  {
    hide Denotes, Nodes, Erase, Separated, Acyclic, Unfold, EqualValues;
    AcyclicUnfolds(deep, v, vs, rank);
    ghost var g := Unfold(deep, v, vs, rank);
    NodesAllocated(g);
    r, h := CloneValue(deep, v, g);
    EqualIffAlike(deep, r, h, v, g);
  }

  /** Every node of a graph lies on some path. */
  lemma {:induction false} PathTo(g: Graph, o: object) returns (p: seq<Step>)
    requires o in Nodes(g)
    ensures Reaches(g, p) && Sub(g, p).id == o
    decreases g
  {
    if g.id == o {
      p := [];
    } else {
      var st :| st in g.kids && o in Nodes(g.kids[st]);
      var q := PathTo(g.kids[st], o);
      p := [st] + q;
      assert p[1..] == q;
    }
  }

  lemma {:induction false} SubIdInNodes(g: Graph, p: seq<Step>)
    requires Reaches(g, p) && Sub(g, p).id != null
    ensures Sub(g, p).id in Nodes(g)
    decreases p
  {
    if p != [] {
      SubIdInNodes(g.kids[p[0]], p[1..]);
    }
  }

  ghost predicate IdsPresent(g: Graph) {
    g.Node? ==> g.id != null && forall st :: st in g.kids ==> IdsPresent(g.kids[st])
  }

  /** Different paths lead to different nodes. */
  ghost predicate NothingShared(g: Graph) {
    forall p, q :: Reaches(g, p) && Reaches(g, q) && p != q ==> Sub(g, p).id != Sub(g, q).id
  }

  lemma {:induction false} SeparatedPathsDiffer(g: Graph, p: seq<Step>, q: seq<Step>)
    requires Separated(g) && Reaches(g, p) && Reaches(g, q) && p != q
    ensures Sub(g, p).id != null && Sub(g, p).id != Sub(g, q).id
    decreases p
  {
    SeparatedIdsPresent(g, p);
    SeparatedIdsPresent(g, q);
    if p == [] {
      SubIdInNodes(g.kids[q[0]], q[1..]);
    } else if q == [] {
      SubIdInNodes(g.kids[p[0]], p[1..]);
    } else if p[0] == q[0] {
      assert p == [p[0]] + p[1..] && q == [q[0]] + q[1..];
      SeparatedPathsDiffer(g.kids[p[0]], p[1..], q[1..]);
    } else {
      SubIdInNodes(g.kids[p[0]], p[1..]);
      SubIdInNodes(g.kids[q[0]], q[1..]);
    }
  }

  lemma {:induction false} SeparatedIdsPresent(g: Graph, p: seq<Step>)
    requires Separated(g) && Reaches(g, p)
    ensures Sub(g, p).id != null
    decreases p
  {
    if p != [] {
      SeparatedIdsPresent(g.kids[p[0]], p[1..]);
    }
  }

  lemma {:induction false} NothingSharedSeparates(g: Graph)
    requires IdsPresent(g) && NothingShared(g)
    ensures Separated(g)
    decreases g
  {
    if g.Node? {
      forall st | st in g.kids
        ensures Separated(g.kids[st]) && g.id !in Nodes(g.kids[st])
      {
        NothingSharedBelow(g, st);
        NothingSharedSeparates(g.kids[st]);
        if g.id in Nodes(g.kids[st]) {
          var p := PathTo(g.kids[st], g.id);
          RootApart(g, st, p);
        }
      }
      forall a, b | a in g.kids && b in g.kids && a != b
        ensures Nodes(g.kids[a]) !! Nodes(g.kids[b])
      {
        forall o | o in Nodes(g.kids[a])
          ensures o !in Nodes(g.kids[b])
        {
          if o in Nodes(g.kids[b]) {
            var p := PathTo(g.kids[a], o);
            var q := PathTo(g.kids[b], o);
            PathsApart(g, a, p, b, q);
          }
        }
      }
    }
  }

  lemma StepPath(g: Graph, st: Step, p: seq<Step>)
    requires g.Node? && st in g.kids && Reaches(g.kids[st], p)
    ensures Reaches(g, [st] + p) && Sub(g, [st] + p) == Sub(g.kids[st], p)
  {
    assert ([st] + p)[1..] == p;
  }

  lemma PathsApart(g: Graph, a: Step, p: seq<Step>, b: Step, q: seq<Step>)
    requires NothingShared(g) && g.Node? && a in g.kids && b in g.kids && a != b
    requires Reaches(g.kids[a], p) && Reaches(g.kids[b], q)
    ensures Sub(g.kids[a], p).id != Sub(g.kids[b], q).id
  {
    StepPath(g, a, p);
    StepPath(g, b, q);
    assert ([a] + p)[0] != ([b] + q)[0];
  }

  lemma RootApart(g: Graph, st: Step, p: seq<Step>)
    requires NothingShared(g) && g.Node? && st in g.kids && Reaches(g.kids[st], p)
    ensures Sub(g.kids[st], p).id != g.id
  {
    StepPath(g, st, p);
    assert Reaches(g, []) && Sub(g, []) == g;
  }

  lemma NothingSharedBelow(g: Graph, st: Step)
    requires NothingShared(g) && IdsPresent(g) && g.Node? && st in g.kids
    ensures NothingShared(g.kids[st]) && IdsPresent(g.kids[st])
  {
    forall p, q | Reaches(g.kids[st], p) && Reaches(g.kids[st], q) && p != q
      ensures Sub(g.kids[st], p).id != Sub(g.kids[st], q).id
    {
      StepPath(g, st, p);
      StepPath(g, st, q);
      assert ([st] + p)[1..] == p && ([st] + q)[1..] == q;
    }
  }

  /** A graph is separated exactly when no two paths meet: that is what it means for a
      clone to undo the sharing inside its source. */
  lemma SeparatedMeansNothingShared(g: Graph)
    requires IdsPresent(g)
    ensures Separated(g) <==> NothingShared(g)
  {
    if Separated(g) {
      forall p, q | Reaches(g, p) && Reaches(g, q) && p != q
        ensures Sub(g, p).id != Sub(g, q).id
      {
        SeparatedPathsDiffer(g, p, q);
      }
    }
    if NothingShared(g) {
      NothingSharedSeparates(g);
    }
  }
}
