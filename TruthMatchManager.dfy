/** The truth-match manager: its own copies of the reconstructed and MC
    graphs, the edge contraction of the MC copy, and the table that maps
    each reconstructed vertex to the MC index it truth matches (or -1). */
module TmManager {
  import opened Wrappers
  import opened Sorting
  import opened Defs
  import opened Graphs
  import opened RecoGraphVisitors
  import opened McGraph
  import opened McGraphVisitors
  import opened TruthMatch
  import RecoManager
  import McManager

  class TruthMatchManager {
    /** `hMCIdx`, `lMCIdx` and `gammaMCIdx` as last copied from the reader. */
    var hits: Hits
    /** The copy of the reconstructed graph and its block indices. */
    var reco: Graph
    var block: map<int, int>
    /** The copy of the MC graph, edge contracted once copied. */
    var mc: Graph
    /** `truth_match`: reco index to matched MC index. */
    var truthMatch: map<int, int>

    constructor ()
      ensures hits == Hits([], [], []) && reco == EmptyGraph && block == map[]
      ensures mc == EmptyGraph && truthMatch == map[]
    {
      hits := Hits([], [], []);
      reco := EmptyGraph;
      block := map[];
      mc := EmptyGraph;
      truthMatch := map[];
    }

    /** `update_graph`: copy the hit tables and both graphs, then contract
        the MC copy. */
    method UpdateGraph(newHits: Hits, rm: RecoManager.RecoGraphManager, mm: McManager.McGraphManager) returns (ok: bool)
      requires Valid(mm.g)
      modifies this
      ensures hits == newHits && reco == rm.built.g && block == rm.built.block
      ensures ok == McContract(mm.g).Ok?
      ensures ok ==> mc == McContract(mm.g).value
      ensures truthMatch == old(truthMatch)
    {
      hits := newHits;
      reco := rm.built.g;
      block := rm.built.block;
      mc := mm.g;
      ok := ContractMcGraph();
    }

    /** `contract_mc_graph`: decide the cleave set on the whole graph, then
        cleave its members one by one. */
    method ContractMcGraph() returns (ok: bool)
      requires Valid(mc)
      modifies this
      ensures hits == old(hits) && reco == old(reco) && block == old(block) && truthMatch == old(truthMatch)
      ensures ok == McContract(old(mc)).Ok?
      ensures ok ==> mc == McContract(old(mc)).value
    {
      var toCleave;
      ok, toCleave := ScanCleaveSet(mc);
      if !ok {
        return;
      }
      ghost var g := mc;
      for i := 0 to |toCleave|
        invariant Valid(mc)
        invariant Contract(g, toCleave) == Contract(mc, toCleave[i..])
        invariant hits == old(hits) && reco == old(reco) && block == old(block) && truthMatch == old(truthMatch)
      {
        assert toCleave[i..][1..] == toCleave[i + 1..];
        ok := CleaveVertex(toCleave[i]);
        if !ok {
          return;
        }
      }
      ok := true;
    }

    /** The scan of `contract_mc_graph`: every vertex, in vertex order, is
        tested on the uncontracted graph. */
    static method ScanCleaveSet(g: Graph) returns (ok: bool, toCleave: seq<int>)
      requires Valid(g)
      ensures forall u :: u in g.ids ==> u in g.code
      ensures ok == CleaveSet(g, g.ids).Ok?
      ensures ok ==> toCleave == CleaveSet(g, g.ids).value
    {
      IdsHaveDaughters(g);
      CleaveSetSpec(g, g.ids);
      toCleave := [];
      for i := 0 to |g.ids|
        invariant CleaveSet(g, g.ids[..i]) == Ok(toCleave)
      {
        var v := g.ids[i];
        assert v in g.ids;
        var c := IsCleaveVertex(g, v);
        if c.Abort? {
          return false, toCleave;
        }
        assert g.ids[..i + 1][..i] == g.ids[..i];
        if c.value {
          toCleave := toCleave + [v];
        }
      }
      assert g.ids[..|g.ids|] == g.ids;
      ok := true;
    }

    /** One pass of the cleave loop: the vertex's mother, if any, gets an
        edge to each of its daughters, then the vertex and its edges go. */
    method CleaveVertex(v: int) returns (ok: bool)
      requires Valid(mc)
      modifies this
      ensures hits == old(hits) && reco == old(reco) && block == old(block) && truthMatch == old(truthMatch)
      ensures ok == Cleave(old(mc), v).Ok?
      ensures ok ==> mc == Cleave(old(mc), v).value && Valid(mc)
    {
      var g;
      ok, g := CleavedGraph(mc, v);
      if ok {
        mc := g;
      }
    }

    /** The graph after cleaving `v`, built edge by edge. */
    static method CleavedGraph(g: Graph, v: int) returns (ok: bool, r: Graph)
      requires Valid(g)
      ensures ok == Cleave(g, v).Ok?
      ensures ok ==> r == Cleave(g, v).value && Valid(r)
    {
      if v !in g.code {
        return false, g;
      }
      IdsHaveDaughters(g);
      var ps := InEdges(g, g.ids, v);
      if |ps| > 1 || ps == [v] {
        return false, g;
      }
      CodesHaveDaughters(g, v);
      r := g;
      if ps != [] {
        assert ps[0] in ps;
        r := AdoptDaughters(g, ps[0], g.dau[v]);
      }
      r := RemoveVertex(r, v);
      CleaveKeeps(g, v);
      ok := true;
    }

    /** The `add_edge(m, d)` loop over the out-edges of the cleaved vertex. */
    static method AdoptDaughters(g: Graph, m: int, kids: seq<int>) returns (r: Graph)
      requires m in g.dau
      ensures r == Adopt(g, m, kids)
    {
      r := g;
      assert g.dau[m] + kids[..0] == g.dau[m];
      assert r == Adopt(g, m, kids[..0]);
      for j := 0 to |kids|
        invariant m in r.dau
        invariant r == Adopt(g, m, kids[..j])
      {
        assert g.dau[m] + kids[..j + 1] == r.dau[m] + [kids[j]];
        r := AddEdge(r, m, kids[j]);
      }
      assert kids[..|kids|] == kids;
    }

    /** `analyze_graph`: clear the table and finish every reconstructed
        vertex in depth-first finish order. */
    method AnalyzeGraph() returns (ok: bool)
      requires Matchable(reco, block) && Valid(mc)
      modifies this
      ensures hits == old(hits) && reco == old(reco) && block == old(block) && mc == old(mc)
      ensures ok == TruthMatches(reco, block, hits, mc).Ok?
      ensures ok ==> truthMatch == TruthMatches(reco, block, hits, mc).value
    {
      truthMatch := map[];
      var rest := PostOrder(reco);
      PostOrderInGraph(reco);
      while rest != []
        invariant hits == old(hits) && reco == old(reco) && block == old(block) && mc == old(mc)
        invariant forall k :: 0 <= k < |rest| ==> rest[k] in reco.code
        invariant TruthMatches(reco, block, hits, mc) == MatchOrder(reco, block, hits, mc, truthMatch, rest)
        decreases |rest|
      {
        ok := FinishVertex(rest[0]);
        if !ok {
          return;
        }
        rest := rest[1..];
      }
      ok := true;
    }

    /** `finish_vertex`: composites and final states are matched, any other
        code is fatal. */
    method FinishVertex(u: int) returns (ok: bool)
      requires Matchable(reco, block) && Valid(mc) && u in reco.code
      modifies this
      ensures hits == old(hits) && reco == old(reco) && block == old(block) && mc == old(mc)
      ensures ok == TmFinish(reco, block, hits, mc, old(truthMatch), u).Ok?
      ensures ok ==> truthMatch == TmFinish(reco, block, hits, mc, old(truthMatch), u).value
    {
      if IsCompositeCode(reco.code[u]) {
        ok := MatchCompositeState(u);
      } else if IsFinalCode(reco.code[u]) {
        ok := MatchFinalState(u);
      } else {
        ok := false;
      }
    }

    /** `MatchFinalState`: the entry of the vertex's hit table at its block
        index. */
    method MatchFinalState(u: int) returns (ok: bool)
      requires Matchable(reco, block) && u in reco.code && IsFinalCode(reco.code[u])
      modifies this
      ensures hits == old(hits) && reco == old(reco) && block == old(block) && mc == old(mc)
      ensures ok == FinalMatch(hits, reco, block, u).Ok?
      ensures ok ==> truthMatch == Put(old(truthMatch), u, FinalMatch(hits, reco, block, u).value)
    {
      var a := Abs(reco.code[u]);
      var table: seq<int>;
      if a == eLund || a == muLund {
        table := hits.l;
      } else if a == piLund || a == KLund {
        table := hits.h;
      } else {
        table := hits.gamma;
      }
      var b := block[u];
      if !(0 <= b < |table|) {
        return false;
      }
      truthMatch := Put(truthMatch, u, table[b]);
      ok := true;
    }

    /** `MatchCompositeState`: collect and sort the daughters' matches;
        -1 if one is negative, otherwise scan the MC vertices for the first
        with the same signed code and the same sorted daughter indices. */
    method MatchCompositeState(u: int) returns (ok: bool)
      requires Matchable(reco, block) && Valid(mc) && u in reco.code && IsCompositeCode(reco.code[u])
      modifies this
      ensures hits == old(hits) && reco == old(reco) && block == old(block) && mc == old(mc)
      ensures ok == CompositeMatch(reco, old(truthMatch), mc, u).Ok?
      ensures ok ==> truthMatch == Put(old(truthMatch), u, CompositeMatch(reco, old(truthMatch), mc, u).value)
    {
      var tmIdx;
      ok, tmIdx := CompositeMatchOf(reco, truthMatch, mc, u);
      if ok {
        truthMatch := Put(truthMatch, u, tmIdx);
      }
    }

    /** The body of `MatchCompositeState` on the graphs and the table. */
    static method CompositeMatchOf(g: Graph, tm: map<int, int>, mc: Graph, u: int) returns (ok: bool, tmIdx: int)
      requires Valid(mc) && u in g.code && u in g.dau && g.dau[u] != []
      ensures ok == CompositeMatch(g, tm, mc, u).Ok?
      ensures ok ==> tmIdx == CompositeMatch(g, tm, mc, u).value
    {
      var dauTm;
      ok, dauTm := DaughterMatches(tm, g.dau[u]);
      tmIdx := -1;
      if !ok {
        return;
      }
      var ds := SortBy(dauTm, ById);
      if ds[0] >= 0 {
        var found := FirstMcMatch(mc, g.code[u], ds);
        if found.Some? {
          tmIdx := found.value;
        }
      }
    }

    /** The daughter loop of `MatchCompositeState`: each daughter's entry,
        in edge order; a daughter without one fails. */
    static method DaughterMatches(tm: map<int, int>, kids: seq<int>) returns (ok: bool, dauTm: seq<int>)
      ensures ok == Matches(tm, kids).Ok?
      ensures ok ==> dauTm == Matches(tm, kids).value
    {
      MatchesSpec(tm, kids);
      dauTm := [];
      for i := 0 to |kids|
        invariant Matches(tm, kids[..i]) == Ok(dauTm)
      {
        if kids[i] !in tm {
          return false, dauTm;
        }
        assert kids[..i + 1][..i] == kids[..i];
        dauTm := dauTm + [tm[kids[i]]];
      }
      assert kids[..|kids|] == kids;
      ok := true;
    }

    /** The scan of the MC vertices in `MatchCompositeState`, stopping at
        the first with code `lund` and sorted daughter indices `ds`. */
    static method FirstMcMatch(mc: Graph, lund: int, ds: seq<int>) returns (found: Option<int>)
      requires Valid(mc)
      ensures found == FirstWhere(SameDecay(mc, lund, ds), mc.ids)
    {
      ghost var p := SameDecay(mc, lund, ds);
      IdsHaveDaughters(mc);
      var ids := mc.ids;
      for i := 0 to |ids|
        invariant FirstWhere(p, ids) == FirstWhere(p, ids[i..])
      {
        var v := ids[i];
        assert v in ids;
        assert ids[i..][0] == v;
        if lund == mc.code[v] {
          var dauIdx := DaughterIndices(mc.dau[v]);
          if SortBy(dauIdx, ById) == ds {
            return Some(v);
          }
        }
        assert ids[i..][1..] == ids[i + 1..];
      }
      found := None;
    }

    /** The MC indices of a particle's daughters, in edge order. */
    static method DaughterIndices(kids: seq<int>) returns (r: seq<int>)
      ensures r == kids
    {
      r := [];
      for k := 0 to |kids|
        invariant r == kids[..k]
      {
        assert kids[..k + 1] == kids[..k] + [kids[k]];
        r := r + [kids[k]];
      }
      assert kids[..|kids|] == kids;
    }

    /** `get_truth_match_status`: the entry of a reco index; an index
        without one fails the source's assertion. */
    function GetTruthMatchStatus(recoIdx: int): (r: Result<int>)
      reads this
      ensures r.Ok? <==> recoIdx in truthMatch
      ensures r.Ok? ==> r.value == truthMatch[recoIdx]
    {
      if recoIdx in truthMatch then Ok(truthMatch[recoIdx]) else Abort
    }

    /** After a successful analysis every reconstructed vertex, and nothing
        else, has a status: its hit-table entry if it is a final state, and
        the match of its daughters' statuses if it is a composite. */
    lemma StatusAfterAnalysis(u: int)
      requires Matchable(reco, block) && TruthMatches(reco, block, hits, mc).Ok?
      requires truthMatch == TruthMatches(reco, block, hits, mc).value
      ensures GetTruthMatchStatus(u).Ok? <==> u in reco.code
      ensures u in reco.code && IsFinalCode(reco.code[u]) ==>
                GetTruthMatchStatus(u) == FinalMatch(hits, reco, block, u)
      ensures u in reco.code && IsCompositeCode(reco.code[u]) ==>
                GetTruthMatchStatus(u) == CompositeMatch(reco, truthMatch, mc, u)
    {
      TruthMatchesSpec(reco, block, hits, mc);
    }
  }
}
