/** Identifier-keyed decay graphs and the depth-first traversal the
    analysers use. A graph lists its vertex identifiers in insertion order,
    maps each to its particle code and to its daughters in edge-insertion
    order (a daughter may repeat: parallel edges are allowed). The traversal
    visits roots in vertex order and daughters in edge order and reports
    each vertex when it finishes, which is the order in which the analysers'
    `finish_vertex` callbacks run. */
module Graphs {
  import opened Sorting

  datatype Graph = Graph(ids: seq<int>, code: map<int, int>, dau: map<int, seq<int>>)

  const EmptyGraph := Graph([], map[], map[])

  function Elems(s: seq<int>): set<int> {
    set x | x in s
  }

  /** Every identifier is listed once and has a code and a daughter list;
      every daughter is a vertex. */
  ghost predicate Valid(g: Graph) {
    && Distinct(g.ids)
    && (forall u :: u in g.code <==> u in g.ids)
    && (forall u :: u in g.dau <==> u in g.ids)
    && (forall u, k :: u in g.dau && 0 <= k < |g.dau[u]| ==> g.dau[u][k] in g.code)
  }

  lemma EmptyGraphValid()
    ensures Valid(EmptyGraph)
  {
  }

  /** `add_vertex` with the code property set: a new last vertex without
      daughters. */
  function AddVertex(g: Graph, id: int, lund: int): Graph {
    Graph(g.ids + [id], g.code[id := lund], g.dau[id := []])
  }

  lemma AddVertexValid(g: Graph, id: int, lund: int)
    requires Valid(g) && id !in g.code
    ensures Valid(AddVertex(g, id, lund))
  {
  }

  /** `add_edge(u, v)`: v becomes the last daughter of u. */
  function AddEdge(g: Graph, u: int, v: int): Graph
    requires u in g.dau
  {
    Graph(g.ids, g.code, g.dau[u := g.dau[u] + [v]])
  }

  lemma AddEdgeValid(g: Graph, u: int, v: int)
    requires Valid(g) && u in g.code && v in g.code
    ensures Valid(AddEdge(g, u, v))
  {
  }

  /** Every vertex with a code is a listed vertex with a daughter list. */
  lemma CodesHaveDaughters(g: Graph, u: int)
    requires Valid(g) && u in g.code
    ensures u in g.ids && u in g.dau
  {
  }

  lemma IdsHaveCodes(g: Graph)
    requires Valid(g)
    ensures forall k :: 0 <= k < |g.ids| ==> g.ids[k] in g.code
  {
    forall k | 0 <= k < |g.ids| ensures g.ids[k] in g.code {
      var u := g.ids[k];
      assert u in g.ids;
      assert u in g.code;
    }
  }

  // ---------------------------------------------------------------------
  // Depth-first traversal
  // ---------------------------------------------------------------------

  /** Explores `u` (white) with the vertices on the current path `gray` and
      the finish sequence `fin` so far; returns the extended finish sequence
      ending with `u`. */
  function Visit(g: Graph, u: int, gray: set<int>, fin: seq<int>): (r: seq<int>)
    requires Valid(g) && u in g.code && u !in gray && u !in fin
    ensures |r| > |fin| && r[..|fin|] == fin && r[|r| - 1] == u
    ensures forall k :: |fin| <= k < |r| ==> r[k] !in gray && r[k] in g.code
    ensures Distinct(fin) ==> Distinct(r)
    decreases Elems(g.ids) - gray - Elems(fin), 0, 0
  {
    assert u in Elems(g.ids) - gray - Elems(fin);
    assert Elems(g.ids) - (gray + {u}) - Elems(fin) < Elems(g.ids) - gray - Elems(fin);
    var f := Kids(g, gray + {u}, fin, g.dau[u]);
    assert u !in f by {
      forall k | 0 <= k < |f| ensures f[k] != u {
        if k < |fin| {
          assert f[k] == fin[k];
        }
      }
    }
    f + [u]
  }

  /** The daughter loop of the vertex on top of `gray`: every white daughter
      is explored in edge order. */
  function Kids(g: Graph, gray: set<int>, fin: seq<int>, kids: seq<int>): (r: seq<int>)
    requires Valid(g) && forall k :: 0 <= k < |kids| ==> kids[k] in g.code
    ensures |r| >= |fin| && r[..|fin|] == fin
    ensures forall k :: |fin| <= k < |r| ==> r[k] !in gray && r[k] in g.code
    ensures forall k :: 0 <= k < |kids| ==> kids[k] in r || kids[k] in gray
    ensures Distinct(fin) ==> Distinct(r)
    decreases Elems(g.ids) - gray - Elems(fin), 1, |kids|
  {
    if kids == [] then fin
    else
      var v := kids[0];
      var f := if v in gray || v in fin then fin else Visit(g, v, gray, fin);
      assert v in f || v in gray;
      var r := Kids(g, gray, f, kids[1..]);
      KidsCover(kids, gray, f, r);
      PrefixChain(fin, f, r, gray, g.code.Keys);
      r
  }

  /** Two extensions in a row, each adding only vertices of `dom` outside
      `gray`, make one such extension. */
  lemma PrefixChain(fin: seq<int>, f: seq<int>, r: seq<int>, gray: set<int>, dom: set<int>)
    requires |f| >= |fin| && f[..|fin|] == fin
    requires forall k :: |fin| <= k < |f| ==> f[k] !in gray && f[k] in dom
    requires |r| >= |f| && r[..|f|] == f
    requires forall k :: |f| <= k < |r| ==> r[k] !in gray && r[k] in dom
    ensures |r| >= |fin| && r[..|fin|] == fin
    ensures forall k :: |fin| <= k < |r| ==> r[k] !in gray && r[k] in dom
  {
    assert r[..|fin|] == r[..|f|][..|fin|];
    forall k | |fin| <= k < |f| ensures r[k] == f[k] {
      assert r[..|f|][k] == r[k];
    }
  }

  /** The first daughter is finished (or gray) before the rest are
      explored, and exploring the rest keeps what was finished. */
  lemma KidsCover(kids: seq<int>, gray: set<int>, f: seq<int>, r: seq<int>)
    requires |kids| > 0 && (kids[0] in f || kids[0] in gray)
    requires |r| >= |f| && r[..|f|] == f
    requires forall k :: 0 <= k < |kids[1..]| ==> kids[1..][k] in r || kids[1..][k] in gray
    ensures forall k :: 0 <= k < |kids| ==> kids[k] in r || kids[k] in gray
  {
    forall k | 0 <= k < |kids| ensures kids[k] in r || kids[k] in gray {
      if k == 0 {
        if kids[0] !in gray {
          var i :| 0 <= i < |f| && f[i] == kids[0];
          assert r[i] == kids[0];
        }
      } else {
        assert kids[k] == kids[1..][k - 1];
      }
    }
  }

  /** The outer loop: every vertex still white starts a new tree. */
  function Roots(g: Graph, us: seq<int>, fin: seq<int>): (r: seq<int>)
    requires Valid(g) && forall k :: 0 <= k < |us| ==> us[k] in g.code
    ensures |r| >= |fin| && r[..|fin|] == fin
    ensures forall k :: |fin| <= k < |r| ==> r[k] in g.code
    ensures forall k :: 0 <= k < |us| ==> us[k] in r
    ensures Distinct(fin) ==> Distinct(r)
    decreases |us|
  {
    if us == [] then fin
    else
      var f := if us[0] in fin then fin else Visit(g, us[0], {}, fin);
      var r := Roots(g, us[1..], f);
      assert forall k :: 0 <= k < |us| ==> us[k] in r by {
        forall k | 0 <= k < |us| ensures us[k] in r {
          if k == 0 {
            var i :| 0 <= i < |f| && f[i] == us[0];
            assert r[i] == us[0];
          } else {
            assert us[k] == us[1..][k - 1];
          }
        }
      }
      r
  }

  /** The finish order of a depth-first search over the whole graph. */
  function PostOrder(g: Graph): (r: seq<int>)
    requires Valid(g)
    ensures Distinct(r)
    ensures forall x :: x in r <==> x in g.code
  {
    IdsHaveCodes(g);
    var r := Roots(g, g.ids, []);
    assert forall x :: x in r ==> x in g.code by {
      forall x | x in r ensures x in g.code {
        var k :| 0 <= k < |r| && r[k] == x;
      }
    }
    assert forall x :: x in g.code ==> x in r by {
      forall x | x in g.code ensures x in r {
        var k :| 0 <= k < |g.ids| && g.ids[k] == x;
      }
    }
    r
  }

  /** Every position of the finish order holds a vertex of the graph. */
  lemma PostOrderInGraph(g: Graph)
    requires Valid(g)
    ensures forall k :: 0 <= k < |PostOrder(g)| ==> PostOrder(g)[k] in g.code
  {
    forall k | 0 <= k < |PostOrder(g)| ensures PostOrder(g)[k] in g.code {
      assert PostOrder(g)[k] in PostOrder(g);
    }
  }

  // ---------------------------------------------------------------------
  // Daughters finish first
  // ---------------------------------------------------------------------

  /** The graph has no directed cycle: ranks strictly decrease along edges
      (a decay product is younger than its mother). */
  ghost predicate Ranked(g: Graph, rank: map<int, int>) {
    && (forall u :: u in g.code ==> u in rank)
    && (forall u, k :: u in g.dau && u in rank && 0 <= k < |g.dau[u]| && g.dau[u][k] in rank ==>
          rank[g.dau[u][k]] < rank[u])
  }

  /** Every vertex of `fin` comes after all of its daughters. */
  ghost predicate DaughtersFirst(g: Graph, fin: seq<int>) {
    forall k, j :: 0 <= k < |fin| && fin[k] in g.dau && 0 <= j < |g.dau[fin[k]]| ==>
      g.dau[fin[k]][j] in fin[..k]
  }

  /** Every vertex on the current path outranks `v`. */
  ghost predicate Above(rank: map<int, int>, gray: set<int>, v: int) {
    v in rank && forall x :: x in gray ==> x in rank && rank[x] > rank[v]
  }

  lemma {:induction false} VisitDaughtersFirst(g: Graph, rank: map<int, int>, u: int, gray: set<int>, fin: seq<int>)
    requires Valid(g) && Ranked(g, rank)
    requires u in g.code && u !in gray && u !in fin
    requires Above(rank, gray, u)
    requires DaughtersFirst(g, fin)
    ensures DaughtersFirst(g, Visit(g, u, gray, fin))
    decreases Elems(g.ids) - gray - Elems(fin), 0, 0
  {
    assert u in Elems(g.ids) - gray - Elems(fin);
    assert Elems(g.ids) - (gray + {u}) - Elems(fin) < Elems(g.ids) - gray - Elems(fin);
    var kids := g.dau[u];
    var gray' := gray + {u};
    assert forall k :: 0 <= k < |kids| ==> Above(rank, gray', kids[k]);
    KidsDaughtersFirst(g, rank, gray', fin, kids);
    var f := Kids(g, gray', fin, kids);
    var r := f + [u];
    assert r == Visit(g, u, gray, fin);
    forall k, j | 0 <= k < |r| && r[k] in g.dau && 0 <= j < |g.dau[r[k]]|
      ensures g.dau[r[k]][j] in r[..k]
    {
      if k < |f| {
        assert r[..k] == f[..k];
      } else {
        var d := kids[j];
        assert rank[d] < rank[u];
        assert d !in gray';
        assert r[..k] == f;
      }
    }
  }

  lemma {:induction false} KidsDaughtersFirst(g: Graph, rank: map<int, int>, gray: set<int>, fin: seq<int>, kids: seq<int>)
    requires Valid(g) && Ranked(g, rank)
    requires forall k :: 0 <= k < |kids| ==> kids[k] in g.code
    requires forall k :: 0 <= k < |kids| ==> Above(rank, gray, kids[k])
    requires DaughtersFirst(g, fin)
    ensures DaughtersFirst(g, Kids(g, gray, fin, kids))
    decreases Elems(g.ids) - gray - Elems(fin), 1, |kids|
  {
    if kids != [] {
      var v := kids[0];
      var f := if v in gray || v in fin then fin else Visit(g, v, gray, fin);
      if !(v in gray || v in fin) {
        VisitDaughtersFirst(g, rank, v, gray, fin);
      }
      assert forall k :: 0 <= k < |kids[1..]| ==> Above(rank, gray, kids[1..][k]) by {
        forall k | 0 <= k < |kids[1..]| ensures Above(rank, gray, kids[1..][k]) {
          assert kids[1..][k] == kids[k + 1];
        }
      }
      KidsDaughtersFirst(g, rank, gray, f, kids[1..]);
    }
  }

  lemma {:induction false} RootsDaughtersFirst(g: Graph, rank: map<int, int>, us: seq<int>, fin: seq<int>)
    requires Valid(g) && Ranked(g, rank)
    requires forall k :: 0 <= k < |us| ==> us[k] in g.code
    requires DaughtersFirst(g, fin)
    ensures DaughtersFirst(g, Roots(g, us, fin))
    decreases |us|
  {
    if us != [] {
      var f := if us[0] in fin then fin else Visit(g, us[0], {}, fin);
      if us[0] !in fin {
        VisitDaughtersFirst(g, rank, us[0], {}, fin);
      }
      RootsDaughtersFirst(g, rank, us[1..], f);
    }
  }

  /** In an acyclic graph every vertex finishes after all of its daughters,
      so a bottom-up analyser always finds its daughters' records cached. */
  lemma PostOrderDaughtersFirst(g: Graph, rank: map<int, int>)
    requires Valid(g) && Ranked(g, rank)
    ensures DaughtersFirst(g, PostOrder(g))
  {
    IdsHaveCodes(g);
    RootsDaughtersFirst(g, rank, g.ids, []);
  }
}
