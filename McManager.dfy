/** The manager of the Monte-Carlo truth graph: it owns the graph, whose
    vertices are named by MC index, and the three record caches that the
    depth-first analysis fills. */
module McManager {
  import opened Wrappers
  import opened Sorting
  import opened Defs
  import opened Catalogue
  import opened GraphDef
  import opened Graphs
  import opened RecoGraphVisitors
  import opened McGraph
  import opened McGraphVisitors

  class McGraphManager {
    var g: Graph
    var caches: McCaches

    constructor()
      ensures g == EmptyGraph && caches == NoMcCaches
    {
      g := EmptyGraph;
      caches := NoMcCaches;
    }

    /** `ClearGraph`: forgets the graph (and with it the MC-index map). */
    method ClearGraph()
      modifies this
      ensures g == EmptyGraph && caches == old(caches)
    {
      g := EmptyGraph;
    }

    method ClearAnalysis()
      modifies this
      ensures g == old(g) && caches == NoMcCaches
    {
      caches := NoMcCaches;
    }

    method Clear()
      modifies this
      ensures g == EmptyGraph && caches == NoMcCaches
    {
      ClearGraph();
      ClearAnalysis();
    }

    /** The daughter loop of `construct_graph` for particle `i`: each
        daughter is inserted unless it already is a vertex, then linked. */
    method LinkDaughtersOf(ev: McEvent, i: nat)
      requires McWellFormed(ev) && i < |ev.mcLund| && HasDaughterLists(g) && i in g.code
      modifies this
      ensures g == LinkDaughters(ev, old(g), i, 0) && caches == old(caches)
    {
      var j: nat := 0;
      while j < ev.dauLen[i]
        invariant HasDaughterLists(g) && i in g.code
        invariant LinkDaughters(ev, old(g), i, 0) == LinkDaughters(ev, g, i, j)
        invariant caches == old(caches)
        decreases ev.dauLen[i] - j
      {
        var v := ev.dauIdx[i] + j;
        if v !in g.code {
          g := AddVertex(g, v, ev.mcLund[v]);
        }
        g := AddEdge(g, i, v);
        j := j + 1;
      }
    }

    /** `construct_graph`: every particle of the event in MC-index order,
        inserted unless already present, with its daughters. */
    method ConstructGraph(ev: McEvent)
      requires McWellFormed(ev)
      modifies this
      ensures g == McBuild(ev) && caches == old(caches)
    {
      ClearGraph();
      for i := 0 to |ev.mcLund|
        invariant HasDaughterLists(g)
        invariant McBuild(ev) == AddParticles(ev, g, i)
        invariant caches == old(caches)
      {
        if i !in g.code {
          g := AddVertex(g, i, ev.mcLund[i]);
        }
        LinkDaughtersOf(ev, i);
      }
    }

    /** `AnalyzeY`: B daughters fill `B1`, then `B2`; the first other
        daughter clears `isBBbar` and returns without storing a record. */
    method AnalyzeY(u: int)
      requires Valid(g) && u in g.code
      modifies this
      ensures g == old(g)
      ensures caches == old(caches).(y := if McYOf(g, u).Some? then Put(old(caches).y, u, McYOf(g, u).value) else old(caches).y)
    {
      var kids := g.dau[u];
      var rec := FreshMcY;
      for i := 0 to |kids|
        invariant McYOf(g, u) == McYScan(g, kids[i..], rec)
      {
        var v := kids[i];
        assert kids[i..][0] == v;
        if !IsBCode(g.code[v]) {
          rec := rec.(isBBbar := false);
          return;
        }
        if rec.b1.None? {
          rec := rec.(b1 := Some(v));
        } else {
          rec := rec.(b2 := Some(v));
        }
        assert kids[i..][1..] == kids[i + 1..];
      }
      caches := caches.(y := Put(caches.y, u, rec));
    }

    /** `AnalyzeB`: the flavour from the vertex's own code, the last tau
        daughter, and the catalogue label of all daughters' signed codes. */
    method AnalyzeB(u: int)
      requires Valid(g) && u in g.code
      modifies this
      ensures g == old(g)
      ensures caches == old(caches).(b := Put(old(caches).b, u, McBRecOf(g, u)))
    {
      var gr := g;
      CodesHaveDaughters(gr, u);
      var rec := FreshMcB;
      if Abs(gr.code[u]) == B0Lund {
        rec := rec.(flavor := BFlavor.B0);
      } else {
        rec := rec.(flavor := BFlavor.Bc);
      }
      var kids := gr.dau[u];
      var tau, lunds := ScanBDaughters(gr, kids);
      var mcType := SearchMcCatalogue(lunds);
      rec := rec.(tau := tau, mcType := mcType);
      caches := caches.(b := Put(caches.b, u, rec));
    }

    /** The daughter loop of `AnalyzeB`: the last tau daughter and the
        daughters' signed codes, in order. */
    static method ScanBDaughters(gr: Graph, kids: seq<int>) returns (tau: Option<int>, lunds: seq<int>)
      requires forall k :: 0 <= k < |kids| ==> kids[k] in gr.code
      ensures tau == LastWhere(CodeIs(gr, IsTauCode), kids)
      ensures lunds == MapSeq(CodeFn(gr), kids)
    {
      tau := None;
      lunds := [];
      for i := 0 to |kids|
        invariant tau == LastWhere(CodeIs(gr, IsTauCode), kids[..i])
        invariant lunds == MapSeq(CodeFn(gr), kids[..i])
      {
        var lund := gr.code[kids[i]];
        assert kids[..i + 1] == kids[..i] + [kids[i]];
        assert kids[..i + 1][..i] == kids[..i];
        assert CodeIs(gr, IsTauCode)(kids[i]) <==> Abs(lund) == tauLund;
        if Abs(lund) == tauLund {
          tau := Some(kids[i]);
        }
        lunds := lunds + [lund];
        MapSeqAppend(CodeFn(gr), kids[..i], [kids[i]]);
      }
      assert kids[..|kids|] == kids;
    }

    /** `AnalyzeTau`: an e or mu daughter decides the label and stops the
        scan; any other daughter sets `tau_h`. */
    method AnalyzeTau(u: int)
      requires Valid(g) && u in g.code
      modifies this
      ensures g == old(g)
      ensures caches == old(caches).(tau := Put(old(caches).tau, u, TauRecOf(g, u)))
    {
      var kids := g.dau[u];
      var rec := FreshTau;
      for i := 0 to |kids|
        invariant TauRecOf(g, u) == TauRec(TauScan(g, kids[i..], rec.mcType))
      {
        var lund := Abs(g.code[kids[i]]);
        assert kids[i..][0] == kids[i];
        if lund == eLund {
          rec := rec.(mcType := TauMcType.tau_e);
          assert TauRecOf(g, u) == rec;
          break;
        } else if lund == muLund {
          rec := rec.(mcType := TauMcType.tau_mu);
          assert TauRecOf(g, u) == rec;
          break;
        } else {
          rec := rec.(mcType := TauMcType.tau_h);
        }
        assert kids[i..][1..] == kids[i + 1..];
      }
      caches := caches.(tau := Put(caches.tau, u, rec));
    }

    /** `finish_vertex`: the analysis the vertex's code selects. */
    method FinishVertex(u: int)
      requires Valid(g) && u in g.code
      modifies this
      ensures g == old(g) && caches == McFinish(g, old(caches), u)
    {
      match McKindOf(g.code[u])
      case McY => AnalyzeY(u);
      case McB => AnalyzeB(u);
      case McTau => AnalyzeTau(u);
      case McOther =>
    }

    /** `analyze_graph`: clear the caches, finish every vertex in
        depth-first finish order, then check that there is at most one
        Upsilon record and either no or exactly two B records. */
    method AnalyzeGraph() returns (ok: bool)
      requires Valid(g)
      modifies this
      ensures g == old(g) && caches == McDfs(g)
      ensures ok == McAnalysis(g).Ok?
    {
      ClearAnalysis();
      var rest := PostOrder(g);
      PostOrderInGraph(g);
      while rest != []
        invariant g == old(g)
        invariant forall k :: 0 <= k < |rest| ==> rest[k] in g.code
        invariant McDfs(g) == McAnalyzeOrder(g, caches, rest)
        decreases |rest|
      {
        FinishVertex(rest[0]);
        rest := rest[1..];
      }
      ok := (|caches.y| == 0 || |caches.y| == 1) && (|caches.b| == 0 || |caches.b| == 2);
    }

    /** `get_mcY`: the Upsilon record of the earliest vertex, if any. */
    function GetMcY(): (r: Option<McYRec>)
      reads this
      ensures r.None? <==> forall j :: 0 <= j < |g.ids| ==> g.ids[j] !in caches.y
      ensures r.Some? ==> exists j :: FirstKey(g.ids, caches.y, j) && r.value == caches.y[g.ids[j]]
    {
      InVertexOrderHead(g.ids, caches.y);
      var ks := InVertexOrder(g.ids, caches.y);
      if ks == [] then None else assert ks[0] in caches.y; Some(caches.y[ks[0]])
    }

    /** `get_mcB1`: the B record of the earliest vertex, if any. */
    function GetMcB1(): (r: Option<McBRec>)
      reads this
      ensures r.None? <==> forall j :: 0 <= j < |g.ids| ==> g.ids[j] !in caches.b
      ensures r.Some? ==> exists j :: FirstKey(g.ids, caches.b, j) && r.value == caches.b[g.ids[j]]
    {
      InVertexOrderHead(g.ids, caches.b);
      var ks := InVertexOrder(g.ids, caches.b);
      if ks == [] then None else assert ks[0] in caches.b; Some(caches.b[ks[0]])
    }

    /** `get_mcB2`: the B record of the second vertex; with a single B
        record the source steps past the end of the map, modelled as an
        abort. */
    function GetMcB2(): (r: Result<Option<McBRec>>)
      reads this
      ensures r == Ok(None) <==> forall j :: 0 <= j < |g.ids| ==> g.ids[j] !in caches.b
      ensures r.Abort? <==> exists j :: OnlyKey(g.ids, caches.b, j)
      ensures r.Ok? && r.value.Some? ==>
                exists j1, j2 :: SecondKey(g.ids, caches.b, j1, j2) && r.value.value == caches.b[g.ids[j2]]
    {
      InVertexOrderHead(g.ids, caches.b);
      var ks := InVertexOrder(g.ids, caches.b);
      if ks == [] then Ok(None)
      else if |ks| == 1 then Abort
      else assert ks[1] in caches.b; Ok(Some(caches.b[ks[1]]))
    }

    /** After a successful analysis the B getters return, in vertex order,
        the records of the B vertices (none or two of them, so the second
        is never missing). */
    lemma BGettersAfterAnalysis()
      requires Valid(g) && McAnalysis(g).Ok? && caches == McDfs(g)
      ensures |BVertices(g)| == 0 || |BVertices(g)| == 2
      ensures GetMcB1() == if BVertices(g) == [] then None else Some(McBRecOf(g, BVertices(g)[0]))
      ensures GetMcB2() == Ok(if BVertices(g) == [] then None else Some(McBRecOf(g, BVertices(g)[1])))
    {
      McDfsContents(g);
      McDfsBOrder(g);
    }

    /** After a successful analysis the Upsilon getter returns the record
        of the one Upsilon whose daughters are all B mesons, if there is
        one. */
    lemma YGetterAfterAnalysis()
      requires Valid(g) && McAnalysis(g).Ok? && caches == McDfs(g)
      ensures |YVertices(g)| <= 1
      ensures GetMcY() == if YVertices(g) == [] then None else McYOf(g, YVertices(g)[0])
    {
      McDfsContents(g);
      McDfsYOrder(g);
    }
  }
}
