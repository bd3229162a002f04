/** Truth matching. The Monte-Carlo graph is first edge-contracted: the
    particles no reconstructed candidate can stand for (neutrinos, taus,
    K0, the two beam particles, decay products of final-state particles and
    photons radiated by anything but a pi0) are cleaved, their mother
    adopting their daughters. The reconstructed graph is then matched bottom
    up: a final-state candidate takes the MC index its detector hits came
    from; a composite matches the first MC particle, in vertex order, with
    the same signed code whose daughters are exactly its daughters'
    matches. */
module TruthMatch {
  import opened Wrappers
  import opened Sorting
  import opened Defs
  import opened Graphs
  import opened RecoGraphVisitors
  import opened McGraph
  import opened McGraphVisitors

  // ---------------------------------------------------------------------
  // In-edges
  // ---------------------------------------------------------------------

  /** The sources of the edges into `v` from the vertices `us`, one entry
      per edge (parallel edges count once each). Only their number and, when
      there is one, its source are ever read. */
  function InEdges(g: Graph, us: seq<int>, v: int): (r: seq<int>)
    requires forall u :: u in us ==> u in g.dau
    ensures forall x :: x in r <==> x in us && v in g.dau[x]
  {
    if us == [] then []
    else
      var n := |us| - 1;
      var u := us[n];
      var rep := seq(Count(g.dau[u], v), _ => u);
      assert us == us[..n] + [u];
      assert forall x :: x in rep <==> x == u && v in g.dau[u] by {
        assert Count(g.dau[u], v) > 0 <==> v in multiset(g.dau[u]);
        if Count(g.dau[u], v) > 0 {
          assert rep[0] == u;
        }
      }
      InEdges(g, us[..n], v) + rep
  }

  /** `m` reaches `v` through exactly one edge, and no other vertex of `us`
      has an edge into `v`. */
  ghost predicate SoleParentIn(g: Graph, us: seq<int>, v: int, m: int)
    requires forall u :: u in us ==> u in g.dau
  {
    m in us && Count(g.dau[m], v) == 1 && forall u :: u in us && u != m ==> v !in g.dau[u]
  }

  /** `v`'s one in-edge comes from `m`. */
  ghost predicate SoleParent(g: Graph, v: int, m: int)
    requires Valid(g)
  {
    SoleParentIn(g, g.ids, v, m)
  }

  lemma {:induction false} NoInEdges(g: Graph, us: seq<int>, v: int)
    requires forall u :: u in us ==> u in g.dau && v !in g.dau[u]
    ensures InEdges(g, us, v) == []
  {
    if us != [] {
      var n := |us| - 1;
      assert us[n] in us;
      assert forall u :: u in us[..n] ==> u in us;
      NoInEdges(g, us[..n], v);
    }
  }

  lemma {:induction false} InEdgesSole(g: Graph, us: seq<int>, v: int, m: int)
    requires forall u :: u in us ==> u in g.dau
    requires Distinct(us)
    ensures InEdges(g, us, v) == [m] <==> SoleParentIn(g, us, v, m)
  {
    if us != [] {
      var n := |us| - 1;
      var u := us[n];
      var front := us[..n];
      assert us == front + [u];
      assert forall x :: x in us <==> x in front || x == u;
      assert Distinct(front);
      assert u !in front;
      InEdgesSole(g, front, v, m);
      var pre := InEdges(g, front, v);
      var c := Count(g.dau[u], v);
      var rep := seq(c, _ => u);
      assert InEdges(g, us, v) == pre + rep;
      if u == m {
        if pre + rep == [m] {
          assert |rep| == 1;
        }
        if SoleParentIn(g, us, v, m) {
          NoInEdges(g, front, v);
          assert rep == [m];
        }
      } else {
        if pre + rep == [m] {
          assert rep == [];
          assert pre == [m];
          assert c == 0;
          assert v !in g.dau[u];
        }
        if SoleParentIn(g, us, v, m) {
          assert v !in g.dau[u];
          assert c == 0;
          assert SoleParentIn(g, front, v, m);
          assert pre + rep == pre;
        }
      }
    }
  }

  // ---------------------------------------------------------------------
  // The cleave predicate
  // ---------------------------------------------------------------------

  /** Neutrinos, the tau and the K0: cleaved wherever they appear. */
  predicate IsInvisibleCode(lund: int) {
    var a := Abs(lund);
    a == nu_eLund || a == nu_muLund || a == nu_tauLund || a == tauLund || a == K0Lund
  }

  /** `is_cleave_vertex`: an invisible particle or a beam particle (MC index
      0 or 1); otherwise, for a particle other than the Upsilon(4S) with a
      mother, the source asserts that the mother is its only one, and the
      particle is cleaved when that mother is a final-state particle or
      when it is a photon whose mother is not a pi0. */
  function IsCleaveVertex(g: Graph, v: int): (r: Result<bool>)
    requires Valid(g) && v in g.code
  {
    var lund := g.code[v];
    if IsInvisibleCode(lund) || v == 0 || v == 1 then Ok(true)
    else
      IdsHaveDaughters(g);
      var ps := InEdges(g, g.ids, v);
      if ps == [] || lund == UpsilonLund then Ok(false)
      else if |ps| != 1 then Abort
      else
        assert ps[0] in ps;
        IdHasCode(g, ps[0]);
        var mother := g.code[ps[0]];
        Ok(IsFinalState(mother) || (lund == gammaLund && mother != pi0Lund))
  }

  lemma IdHasCode(g: Graph, u: int)
    requires Valid(g) && u in g.ids
    ensures u in g.code && u in g.dau
  {
  }

  lemma IdsHaveDaughters(g: Graph)
    requires Valid(g)
    ensures forall u :: u in g.ids ==> u in g.dau && u in g.code
  {
  }

  /** A particle is cleaved for one of the four reasons, and the
      single-mother assertion fails exactly for a particle that needs it
      and has two or more in-edges. */
  lemma IsCleaveVertexReasons(g: Graph, v: int)
    requires Valid(g) && v in g.code
    ensures IsCleaveVertex(g, v).Abort? <==>
              && !IsInvisibleCode(g.code[v]) && v != 0 && v != 1 && g.code[v] != UpsilonLund
              && |InEdges(g, g.ids, v)| >= 2
    ensures IsCleaveVertex(g, v) == Ok(true) <==>
              || IsInvisibleCode(g.code[v]) || v == 0 || v == 1
              || exists m :: SoleParent(g, v, m) && m in g.code &&
                   (|| (g.code[v] != UpsilonLund && IsFinalState(g.code[m]))
                    || (g.code[v] == gammaLund && g.code[m] != pi0Lund))
  {
    IdsHaveDaughters(g);
    var ps := InEdges(g, g.ids, v);
    if |ps| == 1 {
      assert ps == [ps[0]];
      assert ps[0] in ps;
      InEdgesSole(g, g.ids, v, ps[0]);
    }
    if exists m :: SoleParent(g, v, m) && m in g.code {
      var m :| SoleParent(g, v, m) && m in g.code;
      InEdgesSole(g, g.ids, v, m);
    }
  }

  // ---------------------------------------------------------------------
  // Edge contraction
  // ---------------------------------------------------------------------

  function Other(v: int): int -> bool {
    x => x != v
  }

  /** `clear_vertex` then `remove_vertex`: `v` goes with every edge at it;
      the other vertices keep their order. */
  function RemoveVertex(g: Graph, v: int): Graph
    requires forall u :: u in g.ids ==> u in g.dau
  {
    var ids := Filter(Other(v), g.ids);
    FilterMembers(Other(v), g.ids);
    Graph(ids, g.code - {v}, Prune(g.dau, ids, v))
  }

  /** The daughter lists of the vertices `us`, without `v`. */
  function Prune(dau: map<int, seq<int>>, us: seq<int>, v: int): map<int, seq<int>>
    requires forall u :: u in us ==> u in dau
  {
    if us == [] then map[]
    else
      var n := |us| - 1;
      var u := us[n];
      assert u in us;
      assert u in dau;
      assert forall w :: w in us[..n] ==> w in us;
      Prune(dau, us[..n], v)[u := Filter(Other(v), dau[u])]
  }

  lemma {:induction false} PruneSpec(dau: map<int, seq<int>>, us: seq<int>, v: int)
    requires forall u :: u in us ==> u in dau
    ensures forall u :: u in Prune(dau, us, v) <==> u in us
    ensures forall u :: u in us ==> Prune(dau, us, v)[u] == Filter(Other(v), dau[u])
  {
    if us != [] {
      var n := |us| - 1;
      assert forall u :: u in us[..n] ==> u in us;
      PruneSpec(dau, us[..n], v);
      assert us == us[..n] + [us[n]];
    }
  }

  /** The `add_edge(m, d)` loop: `m` adopts the daughters `ds`, appended in
      edge order. */
  function Adopt(g: Graph, m: int, ds: seq<int>): Graph
    requires m in g.dau
  {
    Graph(g.ids, g.code, g.dau[m := g.dau[m] + ds])
  }

  /** Cleaving `v` is well defined: the source asserts that `v` has at most
      one in-edge, and a loop `v -> v` as that edge would make the adoption
      add edges to the very list it is reading. */
  predicate Cleavable(g: Graph, v: int)
    requires Valid(g)
  {
    IdsHaveDaughters(g);
    var ps := InEdges(g, g.ids, v);
    |ps| <= 1 && ps != [v]
  }

  /** The mother of `v`, if any, adopts `v`'s daughters; then `v` goes. */
  function CleaveGraph(g: Graph, v: int): Graph
    requires Valid(g) && v in g.code && Cleavable(g, v)
  {
    IdsHaveDaughters(g);
    var ps := InEdges(g, g.ids, v);
    CodesHaveDaughters(g, v);
    if ps == [] then RemoveVertex(g, v)
    else
      assert ps[0] in ps;
      IdHasCode(g, ps[0]);
      RemoveVertex(Adopt(g, ps[0], g.dau[v]), v)
  }

  /** One step of `contract_mc_graph`: `find_if` by MC index (a missing
      vertex is a dereference of the end iterator), then the cleave. */
  function Cleave(g: Graph, v: int): Result<Graph>
    requires Valid(g)
  {
    if v !in g.code || !Cleavable(g, v) then Abort else Ok(CleaveGraph(g, v))
  }

  /** After a cleave the graph is well formed, `v` is gone, every other
      vertex keeps its code, and the vertex order is kept. */
  lemma CleaveKeeps(g: Graph, v: int)
    requires Valid(g) && v in g.code && Cleavable(g, v)
    ensures var r := CleaveGraph(g, v);
            && Valid(r) && r.code == g.code - {v} && r.ids == Filter(Other(v), g.ids)
  {
    IdsHaveDaughters(g);
    var ps := InEdges(g, g.ids, v);
    CodesHaveDaughters(g, v);
    var g1 := if ps == [] then g else Adopt(g, ps[0], g.dau[v]);
    if ps != [] {
      assert ps[0] in ps;
      IdHasCode(g, ps[0]);
    }
    assert forall u, k :: u in g1.dau && 0 <= k < |g1.dau[u]| ==> g1.dau[u][k] in g.code;
    var r := RemoveVertex(g1, v);
    assert r == CleaveGraph(g, v);
    FilterMembers(Other(v), g.ids);
    PruneSpec(g1.dau, Filter(Other(v), g.ids), v);
    FilterDistinct(Other(v), g.ids);
    forall u, k | u in r.dau && 0 <= k < |r.dau[u]| ensures r.dau[u][k] in r.code {
      FilterMembers(Other(v), g1.dau[u]);
      assert r.dau[u][k] in r.dau[u];
    }
  }

  /** Edge contraction: between the remaining vertices, `u -> w` is an
      edge after the cleave exactly when it was one before, or `u` was
      `v`'s one mother and `w` a daughter of `v`. */
  lemma CleaveEdges(g: Graph, v: int, u: int, w: int)
    requires Valid(g) && v in g.code && Cleavable(g, v)
    requires u in g.code && u != v && w != v
    ensures u in CleaveGraph(g, v).dau
    ensures w in CleaveGraph(g, v).dau[u] <==> w in g.dau[u] || (SoleParent(g, v, u) && w in g.dau[v])
  {
    IdsHaveDaughters(g);
    var ps := InEdges(g, g.ids, v);
    CodesHaveDaughters(g, v);
    CodesHaveDaughters(g, u);
    var g1 := if ps == [] then g else Adopt(g, ps[0], g.dau[v]);
    if ps != [] {
      assert ps[0] in ps;
      IdHasCode(g, ps[0]);
    }
    FilterMembers(Other(v), g1.dau[u]);
    FilterMembers(Other(v), g.ids);
    PruneSpec(g1.dau, Filter(Other(v), g.ids), v);
    InEdgesSole(g, g.ids, v, u);
    if ps == [u] {
      assert g1.dau[u] == g.dau[u] + g.dau[v];
    } else {
      assert g1.dau[u] == g.dau[u];
    }
  }

  /** `p` follows edges of `g`: every vertex is a vertex of `g` and each is
      a mother of the next. */
  ghost predicate IsPath(g: Graph, p: seq<int>) {
    && |p| > 0
    && (forall k :: 0 <= k < |p| ==> p[k] in g.code)
    && (forall k :: 0 <= k < |p| - 1 ==> p[k] in g.dau && p[k + 1] in g.dau[p[k]])
  }

  lemma PathPrefix(g: Graph, p: seq<int>, n: nat)
    requires IsPath(g, p) && 0 < n <= |p|
    ensures IsPath(g, p[..n])
  {
  }

  lemma PathExtend(g: Graph, q: seq<int>, x: int)
    requires IsPath(g, q) && x in g.code
    requires q[|q| - 1] in g.dau && x in g.dau[q[|q| - 1]]
    ensures IsPath(g, q + [x])
  {
  }

  /** A mother of a cleavable vertex other than itself is its one mother. */
  lemma MotherIsSole(g: Graph, v: int, z: int)
    requires Valid(g) && v in g.code && Cleavable(g, v)
    requires z in g.code && z in g.dau && v in g.dau[z]
    ensures z != v && SoleParent(g, v, z)
  {
    IdsHaveDaughters(g);
    var ps := InEdges(g, g.ids, v);
    CodesHaveDaughters(g, z);
    assert z in ps;
    assert ps == [z];
    InEdgesSole(g, g.ids, v, z);
  }

  /** Filtering `v` out of a sequence that ends `v, x` or `y, x` (with `y`
      kept): the kept prefix, then `x`. */
  lemma FilterLast(v: int, p: seq<int>, pre: seq<int>, x: int)
    requires x != v
    requires p == pre + [x] || p == pre + [v, x]
    ensures Filter(Other(v), p) == Filter(Other(v), pre) + [x]
  {
    var n := |p| - 1;
    assert p[..n] + [p[n]] == p;
    if p != pre + [x] {
      assert p[..n] == pre + [v];
      assert (pre + [v])[..|pre|] == pre;
    }
  }

  /** `r` is `g` with the edges at `v` contracted: every other vertex
      stays, every edge between two of them stays, `v` has no loop, and
      every mother of `v` gets an edge to each of `v`'s daughters. */
  ghost predicate ContractedAt(g: Graph, v: int, r: Graph) {
    && (forall x :: x in g.code && x != v ==> x in r.code)
    && (v in g.dau ==> v !in g.dau[v])
    && (forall u, w :: u in g.code && u != v && w != v && u in g.dau && w in g.dau[u] ==>
          u in r.dau && w in r.dau[u])
    && (forall z, w :: z in g.code && z in g.dau && v in g.dau[z] && v in g.dau && w in g.dau[v] && w != v ==>
          z in r.dau && w in r.dau[z])
  }

  /** A cleavable vertex has no edge to itself. */
  lemma NoSelfLoop(g: Graph, v: int)
    requires Valid(g) && v in g.code && Cleavable(g, v)
    ensures v in g.dau && v !in g.dau[v]
  {
    CodesHaveDaughters(g, v);
    IdsHaveDaughters(g);
    var ps := InEdges(g, g.ids, v);
    assert v in g.dau[v] ==> v in ps;
  }

  /** The cleave contracts the edges at `v`. */
  lemma CleaveContracts(g: Graph, v: int)
    requires Valid(g) && v in g.code && Cleavable(g, v)
    ensures ContractedAt(g, v, CleaveGraph(g, v))
  {
    var r := CleaveGraph(g, v);
    assert forall x :: x in g.code && x != v ==> x in r.code by {
      CleaveKeeps(g, v);
    }
    NoSelfLoop(g, v);
    forall u, w | u in g.code && u != v && w != v && u in g.dau && w in g.dau[u]
      ensures u in r.dau && w in r.dau[u]
    {
      CleaveEdges(g, v, u, w);
    }
    forall z, w | z in g.code && z in g.dau && v in g.dau[z] && v in g.dau && w in g.dau[v] && w != v
      ensures z in r.dau && w in r.dau[z]
    {
      MotherIsSole(g, v, z);
      CleaveEdges(g, v, z, w);
    }
  }

  /** A path between two vertices other than `v` survives the contraction
      at `v` with `v` left out: descent through `v` becomes descent through
      the edges its mother adopted. */
  lemma {:induction false} ContractedPath(g: Graph, v: int, r: Graph, p: seq<int>)
    requires ContractedAt(g, v, r)
    requires IsPath(g, p) && p[0] != v && p[|p| - 1] != v
    ensures var q := Filter(Other(v), p);
            IsPath(r, q) && q[0] == p[0] && q[|q| - 1] == p[|p| - 1]
    decreases |p|
  {
    var n := |p| - 1;
    var x := p[n];
    if n == 0 {
      FilterLast(v, p, [], x);
    } else {
      // the last vertex before `x` that is not `v`
      var m := if p[n - 1] != v then n else n - 1;
      var pre := p[..m];
      PathPrefix(g, p, m);
      ContractedPath(g, v, r, pre);
      FilterDrop(v, p, m);
      ContractedExtend(g, v, r, Filter(Other(v), pre), p[m - 1], x);
    }
  }

  /** Filtering `v` out of a path that ends in `x`, directly or after one
      visit to `v`, filters the part before and keeps `x`. */
  lemma FilterDrop(v: int, p: seq<int>, m: nat)
    requires 0 < m < |p| && p[|p| - 1] != v
    requires m == |p| - 1 || (m == |p| - 2 && p[m] == v)
    ensures Filter(Other(v), p) == Filter(Other(v), p[..m]) + [p[|p| - 1]]
  {
    var x := p[|p| - 1];
    if m == |p| - 1 {
      assert p == p[..m] + [x];
    } else {
      assert p == p[..m] + [v, x];
    }
    FilterLast(v, p, p[..m], x);
  }

  /** One step of a path in `g` that avoids `v`, directly or through `v`,
      extends a path in the contraction. */
  lemma ContractedExtend(g: Graph, v: int, r: Graph, q: seq<int>, u: int, x: int)
    requires ContractedAt(g, v, r)
    requires IsPath(r, q) && q[|q| - 1] == u
    requires u in g.code && u != v && x in g.code && x != v && u in g.dau
    requires x in g.dau[u] || (v in g.dau[u] && v in g.dau && x in g.dau[v])
    ensures IsPath(r, q + [x])
  {
    assert x in r.code && u in r.dau && x in r.dau[u];
    PathExtend(r, q, x);
  }

  /** A path between two vertices other than `v` survives the cleave of
      `v` with `v` left out. */
  lemma CleavePath(g: Graph, v: int, p: seq<int>)
    requires Valid(g) && v in g.code && Cleavable(g, v)
    requires IsPath(g, p) && p[0] != v && p[|p| - 1] != v
    ensures var q := Filter(Other(v), p);
            IsPath(CleaveGraph(g, v), q) && q[0] == p[0] && q[|q| - 1] == p[|p| - 1]
  {
    CleaveContracts(g, v);
    ContractedPath(g, v, CleaveGraph(g, v), p);
  }

  function Outside(cs: seq<int>): int -> bool {
    x => x !in cs
  }

  /** Removing `cs[0]`, then the other vertices of `cs`, removes those of
      `cs`. */
  lemma {:induction false} FilterOutStep(cs: seq<int>, s: seq<int>)
    requires cs != []
    ensures Filter(Outside(cs[1..]), Filter(Other(cs[0]), s)) == Filter(Outside(cs), s)
  {
    if s != [] {
      var c := cs[0];
      var n := |s| - 1;
      var x := s[n];
      FilterOutStep(cs, s[..n]);
      var head := Filter(Other(c), s[..n]);
      var tail := if x != c then [x] else [];
      assert Filter(Other(c), s) == head + tail;
      FilterAppend(Outside(cs[1..]), head, tail);
      FilterAllOrNone(Outside(cs[1..]), tail);
      FilterAllOrNone(Outside(cs), [x]);
      assert x in cs <==> x == c || x in cs[1..];
    }
  }

  /** `r` keeps exactly the vertices of `g` outside `cs`, in their order and
      with their codes. */
  ghost predicate KeepsOutside(g: Graph, cs: seq<int>, r: Graph) {
    && (forall u :: u in r.code <==> u in g.code && u !in cs)
    && (forall u :: u in r.code ==> r.code[u] == g.code[u])
    && r.ids == Filter(Outside(cs), g.ids)
  }

  lemma KeepsStep(g: Graph, cs: seq<int>, g1: Graph, r: Graph)
    requires cs != []
    requires g1.code == g.code - {cs[0]} && g1.ids == Filter(Other(cs[0]), g.ids)
    requires KeepsOutside(g1, cs[1..], r)
    ensures KeepsOutside(g, cs, r)
  {
    FilterOutStep(cs, g.ids);
    assert forall u :: u in cs <==> u == cs[0] || u in cs[1..];
  }

  /** The surviving part of a path after the first cleave, then the rest. */
  lemma PathStep(cs: seq<int>, p: seq<int>, p1: seq<int>)
    requires cs != [] && p1 == Filter(Other(cs[0]), p)
    requires |p| > 0 && p[0] !in cs && p[|p| - 1] !in cs
    requires |p1| > 0 && p1[0] == p[0] && p1[|p1| - 1] == p[|p| - 1]
    ensures p1[0] !in cs[1..] && p1[|p1| - 1] !in cs[1..] && p[0] != cs[0] && p[|p| - 1] != cs[0]
    ensures Filter(Outside(cs[1..]), p1) == Filter(Outside(cs), p)
  {
    FilterOutStep(cs, p);
    assert forall u :: u in cs <==> u == cs[0] || u in cs[1..];
  }

  /** One cleave, then the rest of the contraction. */
  lemma ContractStep(g: Graph, cs: seq<int>)
    requires Valid(g) && cs != [] && Contract(g, cs).Ok?
    ensures cs[0] in g.code && Cleavable(g, cs[0])
    ensures Valid(CleaveGraph(g, cs[0]))
    ensures Contract(CleaveGraph(g, cs[0]), cs[1..]) == Contract(g, cs)
  {
    CleaveKeeps(g, cs[0]);
  }

  /** The cleave loop of `contract_mc_graph`, in the order of `cs`. */
  function Contract(g: Graph, cs: seq<int>): (r: Result<Graph>)
    requires Valid(g)
    ensures r.Ok? ==> Valid(r.value)
    decreases |cs|
  {
    if cs == [] then Ok(g)
    else
      var g1 :- Cleave(g, cs[0]);
      CleaveKeeps(g, cs[0]);
      Contract(g1, cs[1..])
  }

  /** After the contraction exactly the vertices outside `cs` remain, in
      their order and with their codes. */
  lemma {:induction false} ContractKeeps(g: Graph, cs: seq<int>)
    requires Valid(g) && Contract(g, cs).Ok?
    ensures KeepsOutside(g, cs, Contract(g, cs).value)
    decreases |cs|
  {
    if cs == [] {
      FilterAllOrNone(Outside(cs), g.ids);
    } else {
      ContractStep(g, cs);
      var g1 := CleaveGraph(g, cs[0]);
      CleaveKeeps(g, cs[0]);
      ContractKeeps(g1, cs[1..]);
      KeepsStep(g, cs, g1, Contract(g, cs).value);
    }
  }

  /** The descendant relation among the remaining vertices is kept: a
      path of the original graph between two of them becomes, without the
      cleaved vertices, a path of the contracted graph. */
  lemma {:induction false} ContractPath(g: Graph, cs: seq<int>, p: seq<int>)
    requires Valid(g) && Contract(g, cs).Ok?
    requires IsPath(g, p) && p[0] !in cs && p[|p| - 1] !in cs
    ensures var q := Filter(Outside(cs), p);
            IsPath(Contract(g, cs).value, q) && q[0] == p[0] && q[|q| - 1] == p[|p| - 1]
    decreases |cs|
  {
    if cs == [] {
      FilterAllOrNone(Outside(cs), p);
    } else {
      ContractStep(g, cs);
      var c := cs[0];
      var g1 := CleaveGraph(g, c);
      assert p[0] != c && p[|p| - 1] != c;
      CleavePath(g, c, p);
      var p1 := Filter(Other(c), p);
      PathStep(cs, p, p1);
      ContractPath(g1, cs[1..], p1);
    }
  }

  // ---------------------------------------------------------------------
  // contract_mc_graph
  // ---------------------------------------------------------------------

  /** The scan of `contract_mc_graph`: the vertices of `us` that
      `is_cleave_vertex` picks, in vertex order, all decided on the graph as
      it is before the first removal. */
  function CleaveSet(g: Graph, us: seq<int>): (r: Result<seq<int>>)
    requires Valid(g) && forall u :: u in us ==> u in g.code
    decreases |us|
  {
    if us == [] then Ok([])
    else
      var n := |us| - 1;
      var u := us[n];
      assert u in us;
      assert forall w :: w in us[..n] ==> w in us;
      var pre :- CleaveSet(g, us[..n]);
      var c :- IsCleaveVertex(g, u);
      Ok(if c then pre + [u] else pre)
  }

  /** Whether `is_cleave_vertex` returns true for `v`. */
  ghost function Cleaved(g: Graph): int -> bool {
    v => Valid(g) && v in g.code && IsCleaveVertex(g, v) == Ok(true)
  }

  /** Whether `is_cleave_vertex` returns false for `v`. */
  ghost function Kept(g: Graph): int -> bool {
    v => !Cleaved(g)(v)
  }

  /** The scan fails exactly when `is_cleave_vertex` fails on some vertex,
      and otherwise lists the cleaved vertices in order. */
  lemma {:induction false} CleaveSetSpec(g: Graph, us: seq<int>)
    requires Valid(g) && forall u :: u in us ==> u in g.code
    ensures CleaveSet(g, us).Ok? <==> forall u :: u in us ==> IsCleaveVertex(g, u).Ok?
    ensures CleaveSet(g, us).Ok? ==> CleaveSet(g, us).value == Filter(Cleaved(g), us)
    decreases |us|
  {
    if us != [] {
      var n := |us| - 1;
      assert forall w :: w in us[..n] ==> w in us;
      CleaveSetSpec(g, us[..n]);
      assert forall w :: w in us <==> w in us[..n] || w == us[n] by {
        assert us == us[..n] + [us[n]];
      }
    }
  }

  /** `contract_mc_graph`: the cleave set of the whole graph, then one
      cleave per member, in order. */
  function McContract(g: Graph): (r: Result<Graph>)
    requires Valid(g)
    ensures r.Ok? ==> Valid(r.value)
  {
    IdsHaveDaughters(g);
    var cs :- CleaveSet(g, g.ids);
    Contract(g, cs)
  }

  /** The contraction step of `McContract` on its own. */
  lemma McContractCleaves(g: Graph)
    requires Valid(g) && McContract(g).Ok?
    ensures forall u :: u in g.ids ==> u in g.code
    ensures CleaveSet(g, g.ids).Ok?
    ensures CleaveSet(g, g.ids).value == Filter(Cleaved(g), g.ids)
    ensures Contract(g, CleaveSet(g, g.ids).value) == McContract(g)
  {
    IdsHaveDaughters(g);
    CleaveSetSpec(g, g.ids);
  }

  /** After a successful contraction exactly the particles that
      `is_cleave_vertex` leaves alone remain, in their order and with their
      codes. */
  lemma McContractKeeps(g: Graph)
    requires Valid(g) && McContract(g).Ok?
    ensures var r := McContract(g).value;
            && (forall u :: u in r.code <==> u in g.code && Kept(g)(u))
            && (forall u :: u in r.code ==> r.code[u] == g.code[u])
            && r.ids == Filter(Kept(g), g.ids)
  {
    McContractCleaves(g);
    var cs := CleaveSet(g, g.ids).value;
    ContractKeeps(g, cs);
    FilterMembers(Cleaved(g), g.ids);
    assert forall k :: 0 <= k < |g.ids| ==> Outside(cs)(g.ids[k]) == Kept(g)(g.ids[k]) by {
      forall k | 0 <= k < |g.ids| ensures Outside(cs)(g.ids[k]) == Kept(g)(g.ids[k]) {
        assert g.ids[k] in g.ids;
      }
    }
    FilterAgree(Outside(cs), Kept(g), g.ids);
  }

  /** The descendant relation among the surviving particles is kept: a
      path between two of them loses only its cleaved vertices. */
  lemma McContractPath(g: Graph, p: seq<int>)
    requires Valid(g) && McContract(g).Ok?
    requires IsPath(g, p) && Kept(g)(p[0]) && Kept(g)(p[|p| - 1])
    ensures var q := Filter(Kept(g), p);
            IsPath(McContract(g).value, q) && q[0] == p[0] && q[|q| - 1] == p[|p| - 1]
  {
    McContractCleaves(g);
    var cs := CleaveSet(g, g.ids).value;
    FilterMembers(Cleaved(g), g.ids);
    assert forall k :: 0 <= k < |p| ==> Outside(cs)(p[k]) == Kept(g)(p[k]) by {
      forall k | 0 <= k < |p| ensures Outside(cs)(p[k]) == Kept(g)(p[k]) {
        assert p[k] in g.code;
      }
    }
    assert p[0] !in cs && p[|p| - 1] !in cs;
    ContractPath(g, cs, p);
    FilterAgree(Outside(cs), Kept(g), p);
  }

  // ---------------------------------------------------------------------
  // A second contraction can remove more
  // ---------------------------------------------------------------------

  /** Four distinct MC indices, none of them a beam particle (0 or 1). */
  predicate ChainIndices(k: int, p: int, a: int, b: int) {
    && k != p && k != a && k != b && p != a && p != b && a != b
    && k !in {0, 1} && p !in {0, 1} && a !in {0, 1} && b !in {0, 1}
  }

  /** K+ -> pi0 -> gamma gamma, with the K+ at index `k`, the pi0 at `p` and
      the photons at `a` and `b`. */
  function KaonPi0Graph(k: int, p: int, a: int, b: int): Graph {
    Graph([k, p, a, b], map[k := KLund, p := pi0Lund, a := gammaLund, b := gammaLund],
          map[k := [p], p := [a, b], a := [], b := []])
  }

  /** The same decay with the pi0 contracted away. */
  function KaonGammaGraph(k: int, a: int, b: int): Graph {
    Graph([k, a, b], map[k := KLund, a := gammaLund, b := gammaLund],
          map[k := [a, b], a := [], b := []])
  }

  lemma KaonPi0Valid(k: int, p: int, a: int, b: int)
    requires ChainIndices(k, p, a, b)
    ensures Valid(KaonPi0Graph(k, p, a, b))
  {
  }

  lemma KaonHasNoMother(k: int, p: int, a: int, b: int)
    requires ChainIndices(k, p, a, b)
    ensures var g := KaonPi0Graph(k, p, a, b);
            Valid(g) && InEdges(g, g.ids, k) == []
  {
    var g := KaonPi0Graph(k, p, a, b);
    KaonPi0Valid(k, p, a, b);
    assert g.dau[k] == [p] && g.dau[p] == [a, b] && g.dau[a] == [] && g.dau[b] == [];
    NoInEdges(g, g.ids, k);
  }

  /** The pi0's one mother is the K+, and each photon's is the pi0. */
  lemma KaonPi0Mothers(k: int, p: int, a: int, b: int, v: int, m: int)
    requires ChainIndices(k, p, a, b)
    requires (v == p && m == k) || (v == a && m == p) || (v == b && m == p)
    ensures var g := KaonPi0Graph(k, p, a, b);
            Valid(g) && InEdges(g, g.ids, v) == [m]
  {
    var g := KaonPi0Graph(k, p, a, b);
    KaonPi0Valid(k, p, a, b);
    assert g.dau[k] == [p] && g.dau[p] == [a, b] && g.dau[a] == [] && g.dau[b] == [];
    assert Count(g.dau[m], v) == 1;
    assert SoleParentIn(g, g.ids, v, m) by {
      forall u | u in g.ids && u != m ensures v !in g.dau[u] {
        assert u == k || u == p || u == a || u == b;
      }
    }
    InEdgesSole(g, g.ids, v, m);
  }

  /** Only the pi0 is a cleave vertex: the K+ has no mother, the pi0's
      mother is a final-state particle, and the photons' mother is a pi0. */
  lemma KaonPi0CleaveTests(k: int, p: int, a: int, b: int)
    requires ChainIndices(k, p, a, b)
    ensures var g := KaonPi0Graph(k, p, a, b);
            && Valid(g)
            && IsCleaveVertex(g, k) == Ok(false) && IsCleaveVertex(g, p) == Ok(true)
            && IsCleaveVertex(g, a) == Ok(false) && IsCleaveVertex(g, b) == Ok(false)
  {
    KaonHasNoMother(k, p, a, b);
    KaonPi0Mothers(k, p, a, b, p, k);
    KaonPi0Mothers(k, p, a, b, a, p);
    KaonPi0Mothers(k, p, a, b, b, p);
  }

  /** One more step of the scan that lists the cleave vertices. */
  lemma CleaveSetSnoc(g: Graph, us: seq<int>, u: int, pre: seq<int>, c: bool)
    requires Valid(g) && (forall w :: w in us ==> w in g.code) && u in g.code
    requires CleaveSet(g, us) == Ok(pre) && IsCleaveVertex(g, u) == Ok(c)
    ensures CleaveSet(g, us + [u]) == Ok(if c then pre + [u] else pre)
  {
    assert (us + [u])[..|us|] == us;
  }

  lemma ChainSeqs(k: int, p: int, a: int, b: int)
    ensures [] + [k] + [p] + [a] + [b] == [k, p, a, b]
    ensures [] + [p] == [p]
    ensures forall u :: u in [k, a, b] <==> u == k || u == a || u == b
  {
  }

  lemma MapOfThree<V>(m: map<int, V>, k: int, a: int, b: int)
    requires forall u :: u in m <==> u == k || u == a || u == b
    ensures m == map[k := m[k], a := m[a], b := m[b]]
  {
    var n := map[k := m[k], a := m[a], b := m[b]];
    assert forall u :: u in m <==> u in n;
    assert forall u :: u in m ==> m[u] == n[u];
  }

  lemma ChainCodes(k: int, p: int, a: int, b: int)
    requires ChainIndices(k, p, a, b)
    ensures KaonPi0Graph(k, p, a, b).code - {p} == KaonGammaGraph(k, a, b).code
  {
    MapOfThree(KaonPi0Graph(k, p, a, b).code - {p}, k, a, b);
  }

  /** The scan lists the pi0 alone. */
  lemma KaonPi0CleaveSet(k: int, p: int, a: int, b: int)
    requires ChainIndices(k, p, a, b)
    ensures var g := KaonPi0Graph(k, p, a, b);
            Valid(g) && CleaveSet(g, g.ids) == Ok([p])
  {
    var g := KaonPi0Graph(k, p, a, b);
    ChainSeqs(k, p, a, b);
    KaonPi0CleaveTests(k, p, a, b);
    var s1 := [] + [k];
    CleaveSetSnoc(g, [], k, [], false);
    var s2 := s1 + [p];
    CleaveSetSnoc(g, s1, p, [], true);
    var s3 := s2 + [a];
    CleaveSetSnoc(g, s2, a, [] + [p], false);
    CleaveSetSnoc(g, s3, b, [] + [p], false);
  }

  lemma DropPi0(k: int, p: int, a: int, b: int)
    requires ChainIndices(k, p, a, b)
    ensures Filter(Other(p), [k, p, a, b]) == [k, a, b]
    ensures Filter(Other(p), [p, a, b]) == [a, b]
    ensures Filter(Other(p), []) == []
  {
    var q := Other(p);
    assert Filter(q, [k]) == [k] && Filter(q, [p]) == [] && Filter(q, [a]) == [a] && Filter(q, [b]) == [b];
    FilterAppend(q, [k], [p]);
    FilterAppend(q, [k] + [p], [a]);
    FilterAppend(q, [k] + [p] + [a], [b]);
    assert [k] + [p] + [a] + [b] == [k, p, a, b];
    FilterAppend(q, [p], [a]);
    FilterAppend(q, [p] + [a], [b]);
    assert [p] + [a] + [b] == [p, a, b];
  }

  /** Cleaving the pi0 hands its photons to the K+. */
  lemma KaonPi0Cleave(k: int, p: int, a: int, b: int)
    requires ChainIndices(k, p, a, b)
    ensures var g := KaonPi0Graph(k, p, a, b);
            Valid(g) && Cleavable(g, p) && CleaveGraph(g, p) == KaonGammaGraph(k, a, b)
  {
    var g := KaonPi0Graph(k, p, a, b);
    DropPi0(k, p, a, b);
    KaonPi0Mothers(k, p, a, b, p, k);
    var adopted := Adopt(g, k, [a, b]);
    assert adopted.dau[k] == [p, a, b] && adopted.dau[a] == [] && adopted.dau[b] == [];
    var r := CleaveGraph(g, p);
    assert r == RemoveVertex(adopted, p);
    assert r.ids == [k, a, b];
    PruneSpec(adopted.dau, [k, a, b], p);
    ChainSeqs(k, p, a, b);
    MapOfThree(r.dau, k, a, b);
    ChainCodes(k, p, a, b);
  }

  lemma KaonGammaValid(k: int, a: int, b: int)
    requires k != a && k != b && a != b
    ensures Valid(KaonGammaGraph(k, a, b))
  {
  }

  /** After the contraction each photon's one mother is the K+. */
  lemma KaonGammaMother(k: int, a: int, b: int, v: int)
    requires k != a && k != b && a != b && (v == a || v == b)
    ensures var g := KaonGammaGraph(k, a, b);
            Valid(g) && InEdges(g, g.ids, v) == [k]
  {
    var g := KaonGammaGraph(k, a, b);
    KaonGammaValid(k, a, b);
    assert g.dau[k] == [a, b] && g.dau[a] == [] && g.dau[b] == [];
    assert Count(g.dau[k], v) == 1;
    assert SoleParentIn(g, g.ids, v, k) by {
      forall u | u in g.ids && u != k ensures v !in g.dau[u] {
        assert u == a || u == b;
      }
    }
    InEdgesSole(g, g.ids, v, k);
  }

  /** Once the K+ is their mother, the photons are cleave vertices. */
  lemma KaonGammaCleavesPhoton(k: int, a: int, b: int, v: int)
    requires k != a && k != b && a != b && a !in {0, 1} && b !in {0, 1}
    requires v == a || v == b
    ensures var g := KaonGammaGraph(k, a, b);
            Valid(g) && IsCleaveVertex(g, v) == Ok(true)
  {
    KaonGammaMother(k, a, b, v);
  }

  /** `contract_mc_graph` need not reach a fixed point. In K+ -> pi0 ->
      gamma gamma the first contraction removes the pi0 and keeps the
      photons, whose mother was a pi0; the K+ is their mother afterwards,
      and a second contraction removes them too. */
  lemma ContractNotIdempotent(k: int, p: int, a: int, b: int)
    requires ChainIndices(k, p, a, b)
    ensures var g0, g1 := KaonPi0Graph(k, p, a, b), KaonGammaGraph(k, a, b);
            && Valid(g0) && Valid(g1) && McContract(g0) == Ok(g1)
            && (McContract(g1).Ok? ==> a !in McContract(g1).value.code && b !in McContract(g1).value.code)
  {
    var g0, g1 := KaonPi0Graph(k, p, a, b), KaonGammaGraph(k, a, b);
    KaonPi0CleaveSet(k, p, a, b);
    KaonPi0Cleave(k, p, a, b);
    assert Contract(g0, [p]) == Ok(g1);
    KaonGammaCleavesPhoton(k, a, b, a);
    KaonGammaCleavesPhoton(k, a, b, b);
    assert Cleaved(g1)(a) && Cleaved(g1)(b);
    if McContract(g1).Ok? {
      McContractKeeps(g1);
    }
  }

  // ---------------------------------------------------------------------
  // Matching one reconstructed vertex
  // ---------------------------------------------------------------------

  /** The detector-hit tables of an event, by block index: the MC index of
      the particle behind each charged track (`hMCIdx`), each identified
      lepton track (`lMCIdx`) and each neutral cluster (`gammaMCIdx`), or a
      negative value when there is none. */
  datatype Hits = Hits(h: seq<int>, l: seq<int>, gamma: seq<int>)

  /** The codes `finish_vertex` sends to `MatchCompositeState`. */
  predicate IsCompositeCode(lund: int) {
    var a := Abs(lund);
    || a == UpsilonLund || a == B0Lund || a == BcLund || a == Dstar0Lund || a == DstarcLund
    || a == D0Lund || a == DcLund || a == KSLund || a == rhoLund || a == pi0Lund
  }

  /** The codes `finish_vertex` sends to `MatchFinalState`. */
  predicate IsFinalCode(lund: int) {
    var a := Abs(lund);
    a == eLund || a == muLund || a == piLund || a == KLund || a == gammaLund
  }

  lemma CompositeAndFinalDisjoint(lund: int)
    ensures !(IsCompositeCode(lund) && IsFinalCode(lund))
  {
  }

  /** The table `MatchFinalState` reads for a final-state code. */
  function HitTable(hits: Hits, lund: int): seq<int>
    requires IsFinalCode(lund)
  {
    var a := Abs(lund);
    if a == eLund || a == muLund then hits.l
    else if a == piLund || a == KLund then hits.h
    else hits.gamma
  }

  /** `MatchFinalState`: the hit-table entry at the vertex's block index,
      sentinel included; an index outside the table is undefined. */
  function FinalMatch(hits: Hits, g: Graph, block: map<int, int>, u: int): Result<int>
    requires u in g.code && u in block && IsFinalCode(g.code[u])
  {
    var t := HitTable(hits, g.code[u]);
    if 0 <= block[u] < |t| then Ok(t[block[u]]) else Abort
  }

  /** Leptons read `lMCIdx`, charged hadrons `hMCIdx` and photons
      `gammaMCIdx`, each at the vertex's own block index. */
  lemma FinalMatchTables(hits: Hits, g: Graph, block: map<int, int>, u: int)
    requires u in g.code && u in block && IsFinalCode(g.code[u])
    ensures var a := Abs(g.code[u]);
            var b := block[u];
            var r := FinalMatch(hits, g, block, u);
            && (a == eLund || a == muLund ==> r == (if 0 <= b < |hits.l| then Ok(hits.l[b]) else Abort))
            && (a == piLund || a == KLund ==> r == (if 0 <= b < |hits.h| then Ok(hits.h[b]) else Abort))
            && (a == gammaLund ==> r == (if 0 <= b < |hits.gamma| then Ok(hits.gamma[b]) else Abort))
  {
  }

  /** The truth matches of the daughters `kids`, in edge order, looked up in
      `tm`; a daughter without an entry dereferences the end iterator. */
  function Matches(tm: map<int, int>, kids: seq<int>): (r: Result<seq<int>>)
    ensures r.Ok? ==> |r.value| == |kids|
    decreases |kids|
  {
    if kids == [] then Ok([])
    else
      var n := |kids| - 1;
      var pre :- Matches(tm, kids[..n]);
      if kids[n] in tm then Ok(pre + [tm[kids[n]]]) else Abort
  }

  lemma {:induction false} MatchesSpec(tm: map<int, int>, kids: seq<int>)
    ensures Matches(tm, kids).Ok? <==> forall k :: 0 <= k < |kids| ==> kids[k] in tm
    ensures Matches(tm, kids).Ok? ==>
              forall k :: 0 <= k < |kids| ==> Matches(tm, kids).value[k] == tm[kids[k]]
    decreases |kids|
  {
    if kids != [] {
      var n := |kids| - 1;
      MatchesSpec(tm, kids[..n]);
      assert forall k :: 0 <= k < n ==> kids[..n][k] == kids[k];
    }
  }

  /** A lookup that succeeded gives the same answer in any map that extends
      the one it read. */
  lemma {:induction false} MatchesExtend(tm: map<int, int>, tm': map<int, int>, kids: seq<int>)
    requires Matches(tm, kids).Ok?
    requires forall k :: k in tm ==> k in tm' && tm'[k] == tm[k]
    ensures Matches(tm', kids) == Matches(tm, kids)
    decreases |kids|
  {
    if kids != [] {
      MatchesExtend(tm, tm', kids[..|kids| - 1]);
    }
  }

  /** MC indices sort as plain integers. */
  const ById: int -> int := x => x

  lemma ByIdInjective()
    ensures Injective(ById)
  {
  }

  /** Two index lists sort alike exactly when they hold the same indices
      equally often. */
  lemma SortedEqualIffSameIndices(a: seq<int>, b: seq<int>)
    ensures SortBy(a, ById) == SortBy(b, ById) <==> multiset(a) == multiset(b)
  {
    if multiset(a) == multiset(b) {
      ByIdInjective();
      SortByPermutation(a, b, ById);
    }
  }

  /** The first of a sorted list is negative exactly when some entry is. */
  lemma SortedHeadNegative(ms: seq<int>)
    requires ms != []
    ensures |SortBy(ms, ById)| == |ms|
    ensures SortBy(ms, ById)[0] < 0 <==> exists k :: 0 <= k < |ms| && ms[k] < 0
  {
    var ds := SortBy(ms, ById);
    assert ds[0] in multiset(ms);
    forall k | 0 <= k < |ms| && ms[k] < 0 ensures ds[0] < 0 {
      assert ms[k] in multiset(ds);
      SortedHeadIsLeast(ds, ById, ms[k]);
    }
  }

  /** MC particle `m` has the signed code `lund` and its sorted daughter
      indices are `ds` (the test of `MatchCompositeState`'s scan). */
  function SameDecay(mc: Graph, lund: int, ds: seq<int>): int -> bool {
    m => m in mc.code && m in mc.dau && mc.code[m] == lund && SortBy(mc.dau[m], ById) == ds
  }

  /** MC particle `m` has the signed code `lund` and its daughters are the
      MC indices `ms`, in any order. */
  ghost predicate Resembles(mc: Graph, m: int, lund: int, ms: seq<int>) {
    m in mc.code && m in mc.dau && mc.code[m] == lund && multiset(mc.dau[m]) == multiset(ms)
  }

  /** `MatchCompositeState`: -1 when a daughter is unmatched; otherwise the
      first MC particle, in vertex order, with the same signed code and the
      daughters the reconstructed daughters matched, or -1 if there is
      none. The source reads the first sorted entry without a check, so a
      composite is required to have daughters. */
  function CompositeMatch(g: Graph, tm: map<int, int>, mc: Graph, u: int): Result<int>
    requires u in g.code && u in g.dau && g.dau[u] != []
  {
    var ms :- Matches(tm, g.dau[u]);
    var ds := SortBy(ms, ById);
    if ds[0] < 0 then Ok(-1)
    else
      match FirstWhere(SameDecay(mc, g.code[u], ds), mc.ids)
      case None => Ok(-1)
      case Some(m) => Ok(m)
  }

  /** `FirstWhere` finds the first element that passes, or there is none. */
  lemma {:induction false} FirstWhereFound(p: int -> bool, s: seq<int>)
    ensures FirstWhere(p, s).None? <==> forall k :: 0 <= k < |s| ==> !p(s[k])
    ensures FirstWhere(p, s).Some? ==>
              exists k :: 0 <= k < |s| && s[k] == FirstWhere(p, s).value && p(s[k]) &&
                forall j :: 0 <= j < k ==> !p(s[j])
    decreases |s|
  {
    if s != [] && !p(s[0]) {
      FirstWhereFound(p, s[1..]);
      if FirstWhere(p, s).Some? {
        var k :| 0 <= k < |s[1..]| && s[1..][k] == FirstWhere(p, s).value && p(s[1..][k]) &&
                 forall j :: 0 <= j < k ==> !p(s[1..][j]);
        assert forall j :: 0 <= j < k + 1 ==> !p(s[j]) by {
          forall j | 0 <= j < k + 1 ensures !p(s[j]) {
            if j > 0 {
              assert s[j] == s[1..][j - 1];
            }
          }
        }
      }
    }
  }

  /** The composite match fails exactly when a daughter has no entry yet;
      it is -1 when a daughter is unmatched, and otherwise the first
      resembling MC particle in vertex order, or -1 when none resembles. */
  lemma CompositeMatchSpec(g: Graph, tm: map<int, int>, mc: Graph, u: int)
    requires u in g.code && u in g.dau && g.dau[u] != []
    ensures CompositeMatch(g, tm, mc, u).Ok? <==>
              forall k :: 0 <= k < |g.dau[u]| ==> g.dau[u][k] in tm
    ensures CompositeMatch(g, tm, mc, u).Ok? ==>
              var ms := Matches(tm, g.dau[u]).value;
              var r := CompositeMatch(g, tm, mc, u).value;
              var lund := g.code[u];
              if exists k :: 0 <= k < |ms| && ms[k] < 0 then r == -1
              else
                || (r == -1 && forall k :: 0 <= k < |mc.ids| ==> !Resembles(mc, mc.ids[k], lund, ms))
                || (exists k :: 0 <= k < |mc.ids| && mc.ids[k] == r && Resembles(mc, r, lund, ms) &&
                      forall j :: 0 <= j < k ==> !Resembles(mc, mc.ids[j], lund, ms))
  {
    MatchesSpec(tm, g.dau[u]);
    if Matches(tm, g.dau[u]).Ok? {
      var ms := Matches(tm, g.dau[u]).value;
      SortedHeadNegative(ms);
      var ds := SortBy(ms, ById);
      var p := SameDecay(mc, g.code[u], ds);
      forall m ensures p(m) <==> Resembles(mc, m, g.code[u], ms) {
        if m in mc.dau {
          SortedEqualIffSameIndices(mc.dau[m], ms);
        }
      }
      FirstWhereFound(p, mc.ids);
    }
  }

  /** A composite match that succeeded stays the same when entries are
      added to the table. */
  lemma CompositeMatchExtend(g: Graph, tm: map<int, int>, tm': map<int, int>, mc: Graph, u: int)
    requires u in g.code && u in g.dau && g.dau[u] != []
    requires CompositeMatch(g, tm, mc, u).Ok?
    requires forall k :: k in tm ==> k in tm' && tm'[k] == tm[k]
    ensures CompositeMatch(g, tm', mc, u) == CompositeMatch(g, tm, mc, u)
  {
    MatchesExtend(tm, tm', g.dau[u]);
  }

  // ---------------------------------------------------------------------
  // analyze_graph
  // ---------------------------------------------------------------------

  /** Every composite candidate has at least one daughter. */
  ghost predicate CompositesHaveDaughters(g: Graph) {
    forall u :: u in g.code && IsCompositeCode(g.code[u]) ==> u in g.dau && g.dau[u] != []
  }

  /** What the matcher needs of the reconstructed graph: every vertex has a
      block index and every composite has daughters. */
  ghost predicate Matchable(g: Graph, block: map<int, int>) {
    Indexed(g, block) && CompositesHaveDaughters(g)
  }

  /** `finish_vertex` of the truth-match visitor: dispatch on the magnitude
      of the code, then `insert` the match (an existing entry is kept). A
      code of neither kind is fatal. */
  function TmFinish(g: Graph, block: map<int, int>, hits: Hits, mc: Graph, tm: map<int, int>, u: int): Result<map<int, int>>
    requires Matchable(g, block) && u in g.code
  {
    if IsCompositeCode(g.code[u]) then
      var m :- CompositeMatch(g, tm, mc, u);
      Ok(Put(tm, u, m))
    else if IsFinalCode(g.code[u]) then
      var m :- FinalMatch(hits, g, block, u);
      Ok(Put(tm, u, m))
    else Abort
  }

  /** `finish_vertex` over the vertices of `order`, first to last. */
  function MatchOrder(g: Graph, block: map<int, int>, hits: Hits, mc: Graph, tm: map<int, int>, order: seq<int>): Result<map<int, int>>
    requires Matchable(g, block) && forall k :: 0 <= k < |order| ==> order[k] in g.code
    decreases |order|
  {
    if order == [] then Ok(tm)
    else
      var tm1 :- TmFinish(g, block, hits, mc, tm, order[0]);
      MatchOrder(g, block, hits, mc, tm1, order[1..])
  }

  /** `analyze_graph`: an empty table, then `finish_vertex` in depth-first
      finish order. */
  function TruthMatches(g: Graph, block: map<int, int>, hits: Hits, mc: Graph): Result<map<int, int>>
    requires Matchable(g, block)
  {
    PostOrderInGraph(g);
    MatchOrder(g, block, hits, mc, map[], PostOrder(g))
  }

  /** Running from position `i` is one `finish_vertex`, then the rest. */
  lemma MatchOrderStep(g: Graph, block: map<int, int>, hits: Hits, mc: Graph, tm: map<int, int>, order: seq<int>, i: nat)
    requires Matchable(g, block) && forall k :: 0 <= k < |order| ==> order[k] in g.code
    requires i < |order|
    ensures order[i] in g.code
    ensures MatchOrder(g, block, hits, mc, tm, order[i..]) ==
              if TmFinish(g, block, hits, mc, tm, order[i]).Abort? then Abort
              else MatchOrder(g, block, hits, mc, TmFinish(g, block, hits, mc, tm, order[i]).value, order[i + 1..])
  {
    assert order[i..][0] == order[i];
    assert order[i..][1..] == order[i + 1..];
  }

  /** The entry of `u` is what its match is on the table: the hit-table
      entry for a final state, the composite match for a composite. */
  ghost predicate EntryHolds(g: Graph, block: map<int, int>, hits: Hits, mc: Graph, tm: map<int, int>, u: int)
    requires Matchable(g, block) && u in tm && u in g.code
  {
    && (IsFinalCode(g.code[u]) ==> FinalMatch(hits, g, block, u) == Ok(tm[u]))
    && (IsCompositeCode(g.code[u]) ==> CompositeMatch(g, tm, mc, u) == Ok(tm[u]))
    && (IsFinalCode(g.code[u]) || IsCompositeCode(g.code[u]))
  }

  /** Every entry of the table is a vertex whose entry holds. */
  ghost predicate Consistent(g: Graph, block: map<int, int>, hits: Hits, mc: Graph, tm: map<int, int>)
    requires Matchable(g, block)
  {
    forall u :: u in tm ==> u in g.code && EntryHolds(g, block, hits, mc, tm, u)
  }

  /** One `finish_vertex` on a new vertex keeps the table consistent and
      adds exactly that vertex. */
  lemma TmFinishConsistent(g: Graph, block: map<int, int>, hits: Hits, mc: Graph, tm: map<int, int>, u: int)
    requires Matchable(g, block) && u in g.code && u !in tm
    requires Consistent(g, block, hits, mc, tm)
    requires TmFinish(g, block, hits, mc, tm, u).Ok?
    ensures var tm1 := TmFinish(g, block, hits, mc, tm, u).value;
            tm1.Keys == tm.Keys + {u} && Consistent(g, block, hits, mc, tm1)
  {
    var tm1 := TmFinish(g, block, hits, mc, tm, u).value;
    CompositeAndFinalDisjoint(g.code[u]);
    assert tm1 == tm[u := tm1[u]];
    forall w | w in tm1 ensures w in g.code && EntryHolds(g, block, hits, mc, tm1, w) {
      CompositeAndFinalDisjoint(g.code[w]);
      if IsCompositeCode(g.code[w]) {
        CompositeMatchExtend(g, tm, tm1, mc, w);
      }
    }
  }

  /** A run over distinct new vertices adds exactly those vertices and
      keeps the table consistent. */
  lemma {:induction false} MatchOrderConsistent(g: Graph, block: map<int, int>, hits: Hits, mc: Graph, tm: map<int, int>, order: seq<int>)
    requires Matchable(g, block) && forall k :: 0 <= k < |order| ==> order[k] in g.code
    requires Distinct(order) && forall k :: 0 <= k < |order| ==> order[k] !in tm
    requires Consistent(g, block, hits, mc, tm)
    requires MatchOrder(g, block, hits, mc, tm, order).Ok?
    ensures var r := MatchOrder(g, block, hits, mc, tm, order).value;
            (forall u :: u in r <==> u in tm || u in order) && Consistent(g, block, hits, mc, r)
    decreases |order|
  {
    if order != [] {
      var u := order[0];
      TmFinishConsistent(g, block, hits, mc, tm, u);
      var tm1 := TmFinish(g, block, hits, mc, tm, u).value;
      var rest := order[1..];
      assert forall k :: 0 <= k < |rest| ==> rest[k] == order[k + 1];
      assert forall k :: 0 <= k < |rest| ==> rest[k] !in tm1;
      MatchOrderConsistent(g, block, hits, mc, tm1, rest);
      assert forall x :: x in order <==> x == u || x in rest by {
        assert order == [u] + rest;
      }
    }
  }

  /** After a successful analysis every reconstructed vertex has exactly
      one entry, and each entry is the match its kind calls for: the
      hit-table entry of a final state, and for a composite the match of its
      daughters' entries in the finished table. */
  lemma TruthMatchesSpec(g: Graph, block: map<int, int>, hits: Hits, mc: Graph)
    requires Matchable(g, block) && TruthMatches(g, block, hits, mc).Ok?
    ensures var r := TruthMatches(g, block, hits, mc).value;
            && (forall u :: u in r <==> u in g.code)
            && forall u :: u in r ==>
                 && (IsFinalCode(g.code[u]) ==> FinalMatch(hits, g, block, u) == Ok(r[u]))
                 && (IsCompositeCode(g.code[u]) ==> CompositeMatch(g, r, mc, u) == Ok(r[u]))
  {
    PostOrderInGraph(g);
    var order := PostOrder(g);
    MatchOrderConsistent(g, block, hits, mc, map[], order);
    var r := TruthMatches(g, block, hits, mc).value;
    forall u | u in r ensures
        && (IsFinalCode(g.code[u]) ==> FinalMatch(hits, g, block, u) == Ok(r[u]))
        && (IsCompositeCode(g.code[u]) ==> CompositeMatch(g, r, mc, u) == Ok(r[u]))
    {
      assert EntryHolds(g, block, hits, mc, r, u);
    }
  }

  /** Every vertex has a code of one of the two kinds, and every final
      state's block index lies inside its hit table. */
  ghost predicate HitsCover(g: Graph, block: map<int, int>, hits: Hits)
    requires Indexed(g, block)
  {
    forall u :: u in g.code ==>
      || IsCompositeCode(g.code[u])
      || (IsFinalCode(g.code[u]) && 0 <= block[u] < |HitTable(hits, g.code[u])|)
  }

  /** `finish_vertex` succeeds on a vertex whose daughters all have
      entries, and the table keeps its entries and gains the vertex. */
  lemma TmFinishOk(g: Graph, block: map<int, int>, hits: Hits, mc: Graph, tm: map<int, int>, u: int)
    requires Matchable(g, block) && HitsCover(g, block, hits) && u in g.code && u in g.dau
    requires forall k :: 0 <= k < |g.dau[u]| ==> g.dau[u][k] in tm
    ensures TmFinish(g, block, hits, mc, tm, u).Ok?
    ensures u in TmFinish(g, block, hits, mc, tm, u).value
    ensures forall v :: v in tm ==> v in TmFinish(g, block, hits, mc, tm, u).value
  {
    if IsCompositeCode(g.code[u]) {
      CompositeMatchSpec(g, tm, mc, u);
    }
  }

  /** A run over a daughters-first order, from position `i`, succeeds
      once every vertex before `i` has an entry. */
  lemma {:induction false} MatchSuffixOk(g: Graph, block: map<int, int>, hits: Hits, mc: Graph, order: seq<int>, tm: map<int, int>, i: nat)
    requires Matchable(g, block) && HitsCover(g, block, hits)
    requires forall k :: 0 <= k < |order| ==> order[k] in g.code
    requires DaughtersFirst(g, order)
    requires i <= |order|
    requires forall j :: 0 <= j < i ==> order[j] in tm
    ensures MatchOrder(g, block, hits, mc, tm, order[i..]).Ok?
    decreases |order| - i
  {
    if i < |order| {
      MatchOrderStep(g, block, hits, mc, tm, order, i);
      var u := order[i];
      CodesHaveDaughters(g, u);
      forall k | 0 <= k < |g.dau[u]| ensures g.dau[u][k] in tm {
        assert g.dau[order[i]][k] in order[..i];
        var j :| 0 <= j < i && order[..i][j] == g.dau[u][k];
        assert order[j] == g.dau[u][k];
      }
      TmFinishOk(g, block, hits, mc, tm, u);
      var tm1 := TmFinish(g, block, hits, mc, tm, u).value;
      MatchSuffixOk(g, block, hits, mc, order, tm1, i + 1);
    }
  }

  /** On a graph without cycles whose vertices all have a matchable code and
      whose final states all have a hit-table entry, the analysis succeeds:
      every composite finds its daughters' entries. */
  lemma TruthMatchesOk(g: Graph, block: map<int, int>, hits: Hits, mc: Graph, rank: map<int, int>)
    requires Matchable(g, block) && Ranked(g, rank) && HitsCover(g, block, hits)
    ensures TruthMatches(g, block, hits, mc).Ok?
  {
    PostOrderInGraph(g);
    PostOrderDaughtersFirst(g, rank);
    MatchSuffixOk(g, block, hits, mc, PostOrder(g), map[], 0);
    assert PostOrder(g)[0..] == PostOrder(g);
  }
}
