/** The Monte-Carlo truth graph and its construction from the generator
    record of one event. A vertex is named by the particle's MC index (its
    position in the generator record); the graph's vertex list keeps the
    order in which vertices were added, which is the order of the vertex
    descriptors the analysis caches are keyed by. */
module McGraph {
  import opened Wrappers
  import opened Sorting
  import opened Defs
  import opened Catalogue
  import opened GraphDef
  import opened Graphs
  import opened RecoGraphVisitors

  /** `is_final_state_particle`: an e, mu, pi, K, photon, proton or
      neutron of either charge. */
  predicate IsFinalState(lund: int) {
    var a := Abs(lund);
    a == eLund || a == muLund || a == piLund || a == KLund || a == gammaLund || a == protonLund || a == neutronLund
  }

  predicate IsTauCode(lund: int) { Abs(lund) == tauLund }

  /** Final-state particles are charge-blind, and none of them is one of the
      decaying particles the analysis records. */
  lemma FinalStateFacts(lund: int)
    ensures IsFinalState(-lund) == IsFinalState(lund)
    ensures IsFinalState(lund) ==> !IsYCode(lund) && !IsBCode(lund) && !IsTauCode(lund)
  {
    KindOfCodes(lund);
  }

  // ---------------------------------------------------------------------
  // Construction
  // ---------------------------------------------------------------------

  /** The reader's buffers for one event: each particle's code, the MC
      index of its first daughter and its number of daughters. */
  datatype McEvent = McEvent(mcLund: seq<int>, dauIdx: seq<int>, dauLen: seq<int>)

  /** Three parallel arrays, and every daughter a particle of the event. */
  predicate McWellFormed(ev: McEvent) {
    && |ev.dauIdx| == |ev.mcLund| && |ev.dauLen| == |ev.mcLund|
    && forall i :: 0 <= i < |ev.mcLund| && ev.dauLen[i] > 0 ==>
         0 <= ev.dauIdx[i] && ev.dauIdx[i] + ev.dauLen[i] <= |ev.mcLund|
  }

  /** The daughters of particle `i`: `dauLen[i]` consecutive MC indices
      from `dauIdx[i]` (none when the length is not positive). */
  function DaughterRange(ev: McEvent, i: nat): (r: seq<int>)
    requires McWellFormed(ev) && i < |ev.mcLund|
    ensures forall k :: 0 <= k < |r| ==> 0 <= r[k] < |ev.mcLund|
  {
    seq(if ev.dauLen[i] > 0 then ev.dauLen[i] else 0, j => ev.dauIdx[i] + j)
  }

  /** Every vertex has a daughter list (the part of validity the builders
      need to add edges). */
  ghost predicate HasDaughterLists(g: Graph) {
    forall u :: u in g.code ==> u in g.dau
  }

  /** Inserts particle `idx` as a new vertex carrying its code unless it is
      already a vertex. */
  function TouchParticle(ev: McEvent, g: Graph, idx: nat): (r: Graph)
    requires idx < |ev.mcLund| && HasDaughterLists(g)
    ensures HasDaughterLists(r) && idx in r.code
    ensures forall w :: w in g.code ==> w in r.code
  {
    if idx in g.code then g else AddVertex(g, idx, ev.mcLund[idx])
  }

  /** The inner loop of `construct_graph` from daughter slot `j` of
      particle `i`: each daughter is inserted or reused and becomes the
      next daughter of `i`. */
  function LinkDaughters(ev: McEvent, g: Graph, i: nat, j: nat): (r: Graph)
    requires McWellFormed(ev) && i < |ev.mcLund|
    requires HasDaughterLists(g) && i in g.code
    ensures HasDaughterLists(r)
    ensures forall w :: w in g.code ==> w in r.code
    decreases ev.dauLen[i] - j
  {
    if j >= ev.dauLen[i] then g
    else
      var v := ev.dauIdx[i] + j;
      var g1 := TouchParticle(ev, g, v);
      LinkDaughters(ev, AddEdge(g1, i, v), i, j + 1)
  }

  /** The outer loop of `construct_graph` from particle `i`. */
  function AddParticles(ev: McEvent, g: Graph, i: nat): (r: Graph)
    requires McWellFormed(ev) && i <= |ev.mcLund| && HasDaughterLists(g)
    ensures HasDaughterLists(r)
    decreases |ev.mcLund| - i
  {
    if i == |ev.mcLund| then g
    else AddParticles(ev, LinkDaughters(ev, TouchParticle(ev, g, i), i, 0), i + 1)
  }

  /** `construct_graph`: all particles of the event, from an empty graph. */
  function McBuild(ev: McEvent): Graph
    requires McWellFormed(ev)
  {
    AddParticles(ev, EmptyGraph, 0)
  }

  /** The graph is well formed and each vertex carries its particle's code. */
  ghost predicate CodesFromEvent(ev: McEvent, g: Graph) {
    && Valid(g)
    && forall v :: v in g.code ==> 0 <= v < |ev.mcLund| && g.code[v] == ev.mcLund[v]
  }

  /** Particles before `i` have their full daughter lists. */
  ghost predicate Linked(ev: McEvent, g: Graph, i: nat)
    requires McWellFormed(ev) && i <= |ev.mcLund|
  {
    forall k :: 0 <= k < i ==> k in g.code && k in g.dau && g.dau[k] == DaughterRange(ev, k)
  }

  /** Vertices from `i` on have no daughters yet. */
  ghost predicate Unlinked(g: Graph, i: int) {
    forall v :: v in g.dau && v >= i ==> g.dau[v] == []
  }

  lemma TouchParticleShape(ev: McEvent, g: Graph, idx: nat, i: nat)
    requires McWellFormed(ev) && idx < |ev.mcLund| && i <= |ev.mcLund| && HasDaughterLists(g)
    requires CodesFromEvent(ev, g) && Linked(ev, g, i)
    ensures CodesFromEvent(ev, TouchParticle(ev, g, idx)) && Linked(ev, TouchParticle(ev, g, idx), i)
    ensures Unlinked(g, i + 1) ==> Unlinked(TouchParticle(ev, g, idx), i + 1)
    ensures idx !in g.code ==> TouchParticle(ev, g, idx).dau[idx] == []
    ensures forall w :: w in g.dau ==> w in TouchParticle(ev, g, idx).dau && TouchParticle(ev, g, idx).dau[w] == g.dau[w]
  {
    if idx !in g.code {
      AddVertexValid(g, idx, ev.mcLund[idx]);
    }
  }

  /** One step of the inner loop: the next daughter is inserted or reused
      and appended to particle `i`'s list; the other lists are untouched. */
  lemma LinkStep(ev: McEvent, g: Graph, i: nat, j: nat)
    requires McWellFormed(ev) && i < |ev.mcLund| && HasDaughterLists(g) && i in g.code
    requires CodesFromEvent(ev, g) && Linked(ev, g, i) && Unlinked(g, i + 1)
    requires j < ev.dauLen[i] && g.dau[i] == DaughterRange(ev, i)[..j]
    ensures var g2 := AddEdge(TouchParticle(ev, g, ev.dauIdx[i] + j), i, ev.dauIdx[i] + j);
            && CodesFromEvent(ev, g2) && Linked(ev, g2, i) && Unlinked(g2, i + 1)
            && g2.dau[i] == DaughterRange(ev, i)[..j + 1]
  {
    var range := DaughterRange(ev, i);
    var v := ev.dauIdx[i] + j;
    var g1 := TouchParticle(ev, g, v);
    TouchParticleShape(ev, g, v, i);
    AddEdgeValid(g1, i, v);
    assert range[..j + 1] == range[..j] + [v];
  }

  /** The inner loop unrolled once: daughter slot `j` is linked, then the
      loop goes on from slot `j + 1`. */
  lemma LinkDaughtersUnfold(ev: McEvent, g: Graph, i: nat, j: nat)
    requires McWellFormed(ev) && i < |ev.mcLund| && HasDaughterLists(g) && i in g.code
    requires j < ev.dauLen[i]
    ensures var v := ev.dauIdx[i] + j;
            LinkDaughters(ev, g, i, j) == LinkDaughters(ev, AddEdge(TouchParticle(ev, g, v), i, v), i, j + 1)
  {
  }

  /** Equal graphs have the same shape. */
  lemma ShapeOfEqual(ev: McEvent, a: Graph, b: Graph, i: nat)
    requires McWellFormed(ev) && i <= |ev.mcLund| && a == b
    ensures CodesFromEvent(ev, a) ==> CodesFromEvent(ev, b)
    ensures Linked(ev, a, i) ==> Linked(ev, b, i)
    ensures Unlinked(a, i) ==> Unlinked(b, i)
  {
  }

  /** The inner loop gives particle `i` exactly its daughter range and
      leaves every other daughter list alone. */
  lemma {:induction false} LinkDaughtersShape(ev: McEvent, g: Graph, i: nat, j: nat)
    requires McWellFormed(ev) && i < |ev.mcLund| && HasDaughterLists(g) && i in g.code
    requires CodesFromEvent(ev, g) && Linked(ev, g, i) && Unlinked(g, i + 1)
    requires j <= |DaughterRange(ev, i)| && g.dau[i] == DaughterRange(ev, i)[..j]
    ensures CodesFromEvent(ev, LinkDaughters(ev, g, i, j))
    ensures Linked(ev, LinkDaughters(ev, g, i, j), i + 1)
    ensures Unlinked(LinkDaughters(ev, g, i, j), i + 1)
    decreases ev.dauLen[i] - j
  {
    if j < ev.dauLen[i] {
      LinkStep(ev, g, i, j);
      var v := ev.dauIdx[i] + j;
      var g2 := AddEdge(TouchParticle(ev, g, v), i, v);
      LinkDaughtersShape(ev, g2, i, j + 1);
      LinkDaughtersUnfold(ev, g, i, j);
      ShapeOfEqual(ev, LinkDaughters(ev, g2, i, j + 1), LinkDaughters(ev, g, i, j), i + 1);
    } else {
      assert LinkDaughters(ev, g, i, j) == g;
      assert DaughterRange(ev, i)[..j] == DaughterRange(ev, i);
      ShapeOfEqual(ev, g, LinkDaughters(ev, g, i, j), i + 1);
    }
  }

  /** One step of the outer loop: particle `i` is inserted or reused and
      gets its daughters. */
  lemma ParticleStep(ev: McEvent, g: Graph, i: nat)
    requires McWellFormed(ev) && i < |ev.mcLund| && HasDaughterLists(g)
    requires CodesFromEvent(ev, g) && Linked(ev, g, i) && Unlinked(g, i)
    ensures var g2 := LinkDaughters(ev, TouchParticle(ev, g, i), i, 0);
            CodesFromEvent(ev, g2) && Linked(ev, g2, i + 1) && Unlinked(g2, i + 1)
  {
    var g1 := TouchParticle(ev, g, i);
    TouchParticleShape(ev, g, i, i);
    assert g1.dau[i] == DaughterRange(ev, i)[..0];
    LinkDaughtersShape(ev, g1, i, 0);
  }

  lemma {:induction false} AddParticlesShape(ev: McEvent, g: Graph, i: nat)
    requires McWellFormed(ev) && i <= |ev.mcLund| && HasDaughterLists(g)
    requires CodesFromEvent(ev, g) && Linked(ev, g, i) && Unlinked(g, i)
    ensures CodesFromEvent(ev, AddParticles(ev, g, i))
    ensures Linked(ev, AddParticles(ev, g, i), |ev.mcLund|)
    decreases |ev.mcLund| - i
  {
    if i < |ev.mcLund| {
      var g2 := LinkDaughters(ev, TouchParticle(ev, g, i), i, 0);
      ParticleStep(ev, g, i);
      AddParticlesShape(ev, g2, i + 1);
      var r := AddParticles(ev, g2, i + 1);
      assert CodesFromEvent(ev, r);
      assert AddParticles(ev, g, i) == r;
      ShapeOfEqual(ev, r, AddParticles(ev, g, i), |ev.mcLund|);
    } else {
      assert AddParticles(ev, g, i) == g;
      ShapeOfEqual(ev, g, AddParticles(ev, g, i), |ev.mcLund|);
    }
  }

  /** The truth graph has one vertex per particle of the event, carrying
      the particle's code, and the daughters of particle `i` are the MC
      indices `dauIdx[i]`, ..., `dauIdx[i] + dauLen[i] - 1` in that order. */
  lemma McBuildShape(ev: McEvent)
    requires McWellFormed(ev)
    ensures Valid(McBuild(ev))
    ensures forall v :: v in McBuild(ev).code <==> 0 <= v < |ev.mcLund|
    ensures forall v :: 0 <= v < |ev.mcLund| ==>
              && v in McBuild(ev).code && McBuild(ev).code[v] == ev.mcLund[v]
              && v in McBuild(ev).dau && McBuild(ev).dau[v] == DaughterRange(ev, v)
  {
    EmptyGraphValid();
    AddParticlesShape(ev, EmptyGraph, 0);
  }

  /** Vertices are numbered in the order particles are first met: a
      particle, then those of its daughters not yet inserted. So when
      particle 0 has particle 2 as its only daughter, vertex 1 is particle 2,
      not particle 1. */
  lemma McBuildFirstSeenOrder()
    ensures var ev := McEvent([10, 20, 30], [2, 0, 0], [1, 0, 0]);
            McWellFormed(ev) && McBuild(ev).ids == [0, 2, 1]
  {
    var ev := McEvent([10, 20, 30], [2, 0, 0], [1, 0, 0]);
    var g0 := TouchParticle(ev, EmptyGraph, 0);
    assert g0.ids == [0];
    var g1 := LinkDaughters(ev, g0, 0, 0);
    var g1a := AddEdge(TouchParticle(ev, g0, 2), 0, 2);
    assert g1a.ids == [0, 2];
    assert LinkDaughters(ev, g1a, 0, 1) == g1a;
    assert g1 == g1a;
    var g2 := LinkDaughters(ev, TouchParticle(ev, g1, 1), 1, 0);
    assert g2 == TouchParticle(ev, g1, 1);
    assert g2.ids == [0, 2, 1];
    var g3 := LinkDaughters(ev, TouchParticle(ev, g2, 2), 2, 0);
    assert g3 == g2;
    assert AddParticles(ev, g2, 2) == AddParticles(ev, g3, 3) == g2;
    assert AddParticles(ev, g1, 1) == AddParticles(ev, g2, 2);
    assert AddParticles(ev, EmptyGraph, 0) == AddParticles(ev, g1, 1);
  }
}
