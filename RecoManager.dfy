/** The manager of the reconstructed graph: it owns the indexer, the graph
    with its reco-index map and block indices, and the four record caches
    that the depth-first analysis fills. */
module RecoManager {
  import opened Wrappers
  import opened Defs
  import opened Catalogue
  import opened GraphDef
  import opened Graphs
  import opened RecoGraph
  import opened RecoGraphVisitors

  /** The reader's buffers for one event: the six candidate blocks that can
      be parents, with their daughter slots (Y: 2, B: 4, D: 5, C: 2, h: 2,
      l: 3), and the number of photon candidates. */
  datatype RecoEvent = RecoEvent(
    y: CandBlock, b: CandBlock, d: CandBlock, c: CandBlock, h: CandBlock, l: CandBlock, nGamma: int)

  ghost predicate EventWellFormed(ev: RecoEvent) {
    && WellFormed(ev.y) && |ev.y.dauIdx| == 2
    && WellFormed(ev.b) && |ev.b.dauIdx| == 4
    && WellFormed(ev.d) && |ev.d.dauIdx| == 5
    && WellFormed(ev.c) && |ev.c.dauIdx| == 2
    && WellFormed(ev.h) && |ev.h.dauIdx| == 2
    && WellFormed(ev.l) && |ev.l.dauIdx| == 3
  }

  /** The counts handed to the indexer, in band order. */
  function EventCounts(ev: RecoEvent): seq<int> {
    [|ev.y.lund|, |ev.b.lund|, |ev.d.lund|, |ev.c.lund|, |ev.h.lund|, |ev.l.lund|, ev.nGamma]
  }

  /** The six `AddCandidates` calls of `construct_graph`, from an empty
      graph: Y, B, D, C, h and l blocks are parents; photons never are. */
  function BuildAll(ix: RecoIndexer, ev: RecoEvent): Built
    requires EventWellFormed(ev)
    reads ix
  {
    var b1 := AddCands(ix, NothingBuilt, ev.y, 0);
    var b2 := AddCands(ix, b1, ev.b, 0);
    var b3 := AddCands(ix, b2, ev.d, 0);
    var b4 := AddCands(ix, b3, ev.c, 0);
    var b5 := AddCands(ix, b4, ev.h, 0);
    AddCands(ix, b5, ev.l, 0)
  }

  /** The graph built from an event is well formed and every vertex has a
      block index. */
  lemma BuildAllCoherent(ix: RecoIndexer, ev: RecoEvent)
    requires EventWellFormed(ev)
    ensures Coherent(BuildAll(ix, ev))
  {
    EmptyGraphValid();
    var b1 := AddCands(ix, NothingBuilt, ev.y, 0);
    AddCandsCoherent(ix, NothingBuilt, ev.y, 0);
    var b2 := AddCands(ix, b1, ev.b, 0);
    AddCandsCoherent(ix, b1, ev.b, 0);
    var b3 := AddCands(ix, b2, ev.d, 0);
    AddCandsCoherent(ix, b2, ev.d, 0);
    var b4 := AddCands(ix, b3, ev.c, 0);
    AddCandsCoherent(ix, b3, ev.c, 0);
    var b5 := AddCands(ix, b4, ev.h, 0);
    AddCandsCoherent(ix, b4, ev.h, 0);
    AddCandsCoherent(ix, b5, ev.l, 0);
  }

  /** Every Y candidate of the event has a vertex, named by its reco
      index. */
  lemma BuildAllHasY(ix: RecoIndexer, ev: RecoEvent)
    requires EventWellFormed(ev)
    ensures forall k :: 0 <= k < |ev.y.lund| ==> ix.RecoIdx(ev.y.lund[k], k) in BuildAll(ix, ev).g.code
  {
    AddCandsHasCandidates(ix, NothingBuilt, ev.y, 0);
  }

  /** The code list `AnalyzeD` builds: the vertex's own code, then each
      daughter's code in edge order. */
  method CollectCodes(g: Graph, u: int) returns (lunds: seq<int>)
    requires Valid(g) && u in g.code
    ensures u in g.dau && lunds == OwnAndDaughterCodes(g, u)
  {
    var kids := g.dau[u];
    lunds := [g.code[u]];
    for i := 0 to |kids|
      invariant [g.code[u]] + Codes(g, kids) == lunds + Codes(g, kids[i..])
    {
      assert kids[i..][1..] == kids[i + 1..];
      lunds := lunds + [g.code[kids[i]]];
    }
    CodesAreMapped(g, kids);
  }

  class RecoGraphManager {
    const indexer: RecoIndexer
    /** The graph, the block index of each vertex and (as its key set) the
        reco-index map. */
    var built: Built
    /** `Y_map`, `B_map`, `D_map` and `Lepton_map`. */
    var caches: Caches

    constructor ()
      ensures fresh(indexer) && indexer.Counts() == [0, 0, 0, 0, 0, 0, 0]
      ensures built == NothingBuilt && caches == NoCaches
    {
      indexer := new RecoIndexer();
      built := NothingBuilt;
      caches := NoCaches;
    }

    /** `ClearGraph`: no vertex, no reco index, zero counts. */
    method ClearGraph()
      modifies this, indexer
      ensures built == NothingBuilt && caches == old(caches)
      ensures indexer.Counts() == [0, 0, 0, 0, 0, 0, 0]
    {
      built := NothingBuilt;
      indexer.Clear();
    }

    /** `ClearAnalysis`: the four caches are emptied. */
    method ClearAnalysis()
      modifies this
      ensures caches == NoCaches && built == old(built)
    {
      caches := NoCaches;
    }

    /** `clear`. */
    method Clear()
      modifies this, indexer
      ensures built == NothingBuilt && caches == NoCaches
      ensures indexer.Counts() == [0, 0, 0, 0, 0, 0, 0]
    {
      ClearGraph();
      ClearAnalysis();
    }

    /** `AddCandidates`: every candidate of the block and the daughters its
        slots name, up to the first empty slot, are inserted or reused by
        reco index, with one edge per scanned slot. */
    method AddCandidates(blk: CandBlock)
      requires WellFormed(blk) && Keyed(built)
      modifies this
      ensures built == AddCands(indexer, old(built), blk, 0)
      ensures caches == old(caches)
    {
      for i := 0 to |blk.lund|
        invariant Keyed(built) && caches == old(caches)
        invariant AddCands(indexer, built, blk, i) == AddCands(indexer, old(built), blk, 0)
      {
        ghost var before := built;
        var uIdx := indexer.RecoIdx(blk.lund[i], i);
        if uIdx !in built.g.code {
          built := Built(AddVertex(built.g, uIdx, blk.lund[i]), built.block[uIdx := i]);
        }
        assert built == Touch(before, uIdx, i, blk.lund[i]);
        ghost var touched := built;
        ScanDaughters(blk, i, uIdx);
        assert built == ScanSlots(indexer, touched, blk, i, uIdx, 0);
        assert AddCands(indexer, before, blk, i) == AddCands(indexer, built, blk, i + 1);
      }
    }

    /** The daughter-slot loop of `AddCandidates` for candidate `i`, whose
        vertex is `uIdx`: slots are read in order up to the first empty one. */
    method ScanDaughters(blk: CandBlock, i: nat, uIdx: int)
      requires WellFormed(blk) && i < |blk.lund| && Keyed(built) && uIdx in built.g.code
      modifies this
      ensures built == ScanSlots(indexer, old(built), blk, i, uIdx, 0)
      ensures caches == old(caches)
    {
      var j := 0;
      while j < |blk.dauIdx|
        invariant j <= |blk.dauIdx|
        invariant Keyed(built) && uIdx in built.g.code
        invariant ScanSlots(indexer, built, blk, i, uIdx, j) == ScanSlots(indexer, old(built), blk, i, uIdx, 0)
        invariant caches == old(caches)
        decreases |blk.dauIdx| - j
      {
        if blk.dauIdx[j][i] == -1 {
          break;
        }
        var vIdx := indexer.RecoIdx(blk.dauLund[j][i], blk.dauIdx[j][i]);
        if vIdx !in built.g.code {
          built := Built(AddVertex(built.g, vIdx, blk.dauLund[j][i]), built.block[vIdx := blk.dauIdx[j][i]]);
        }
        built := Built(AddEdge(built.g, uIdx, vIdx), built.block);
        j := j + 1;
      }
    }

    /** `construct_graph`: clear the graph, size the indexer from the event
        and add the six parent blocks. */
    method ConstructGraph(ev: RecoEvent)
      requires EventWellFormed(ev)
      modifies this, indexer
      ensures indexer.Counts() == EventCounts(ev)
      ensures built == BuildAll(indexer, ev) && Coherent(built)
      ensures caches == old(caches)
    {
      ClearGraph();
      indexer.Set(EventCounts(ev));
      AddCandidates(ev.y);
      AddCandidates(ev.b);
      AddCandidates(ev.d);
      AddCandidates(ev.c);
      AddCandidates(ev.h);
      AddCandidates(ev.l);
      BuildAllCoherent(indexer, ev);
    }

    /** `AnalyzeD`: the D mode of the D's code and its daughters' codes. */
    method AnalyzeD(u: int) returns (ok: bool)
      requires Indexed(built.g, built.block) && u in built.g.code
      modifies this
      ensures built == old(built)
      ensures ok == DRecOfD(built.g, u).Ok?
      ensures caches == if ok then old(caches).(d := Put(old(caches).d, u, DRecOfD(built.g, u).value)) else old(caches)
    {
      var lunds := CollectCodes(built.g, u);
      var mode := SearchDCatalogue(lunds);
      if mode.Abort? {
        return false;
      }
      caches := caches.(d := Put(caches.d, u, DRec(mode.value, NoDstar)));
      ok := true;
    }

    /** `AnalyzeDstar`: the D mode copied from the D daughter's cached
        record and the D* mode of the D*'s code and its daughters' codes;
        a daughter other than D, pi, pi0 or gamma aborts. */
    method AnalyzeDstar(u: int) returns (ok: bool)
      requires Indexed(built.g, built.block) && u in built.g.code
      modifies this
      ensures built == old(built)
      ensures ok == DstarRecOf(built.g, old(caches), u).Ok?
      ensures caches == if ok then old(caches).(d := Put(old(caches).d, u, DstarRecOf(built.g, old(caches), u).value)) else old(caches)
    {
      var g := built.g;
      var kids := g.dau[u];
      var dMode := FreshD.dMode;
      var lunds := [g.code[u]];
      for i := 0 to |kids|
        invariant DstarScan(g, caches, kids, FreshD.dMode, [g.code[u]]) == DstarScan(g, caches, kids[i..], dMode, lunds)
      {
        var v := kids[i];
        var lund := g.code[v];
        if IsDCode(lund) {
          dMode := DOf(caches, v).dMode;
          lunds := lunds + [lund];
        } else if IsDstarDaughterCode(lund) {
          lunds := lunds + [lund];
        } else {
          assert kids[i..][0] == v;
          return false;
        }
        assert kids[i..][1..] == kids[i + 1..];
      }
      var mode := SearchDstarCatalogue(lunds);
      if mode.Abort? {
        return false;
      }
      caches := caches.(d := Put(caches.d, u, DRec(dMode, mode.value)));
      ok := true;
    }

    /** `AnalyzeLepton`, with the electron case falling into the muon case. */
    method AnalyzeLepton(u: int) returns (ok: bool)
      requires Indexed(built.g, built.block) && u in built.g.code && IsLeptonCode(built.g.code[u])
      modifies this
      ensures built == old(built) && ok
      ensures caches == old(caches).(lepton := Put(old(caches).lepton, u, LeptonRecOf(built.g, built.block, old(caches), u)))
    {
      var g := built.g;
      var a := Abs(g.code[u]);
      var rec := FreshLepton;
      if a == eLund {
        rec := LeptonRec(built.block[u], -1, TauType.tau_e);
      }
      if a == eLund || a == muLund {
        rec := LeptonRec(built.block[u], -1, TauType.tau_mu);
      } else if a == piLund {
        rec := LeptonRec(-1, built.block[u], TauType.tau_pi);
      } else {
        rec := rec.(lBlockIdx := -1);
        var kids := g.dau[u];
        var isPion := CodeIs(g, p => Abs(p) == piLund);
        var i := 0;
        while i < |kids|
          invariant i <= |kids|
          invariant FirstWhere(isPion, kids) == FirstWhere(isPion, kids[i..])
          invariant rec == FreshLepton
        {
          if isPion(kids[i]) {
            rec := rec.(piBlockIdx := LeptonOf(caches, kids[i]).piBlockIdx);
            break;
          }
          assert kids[i..][1..] == kids[i + 1..];
          i := i + 1;
        }
        rec := rec.(tauMode := TauType.tau_rho);
      }
      caches := caches.(lepton := Put(caches.lepton, u, rec));
      ok := true;
    }

    /** `AnalyzeB`: the flavor from the B's own code, then `d` and `lepton`
        from the daughters; any other daughter aborts. */
    method AnalyzeB(u: int) returns (ok: bool)
      requires Indexed(built.g, built.block) && u in built.g.code
      modifies this
      ensures built == old(built)
      ensures ok == BRecOf(built.g, u).Ok?
      ensures caches == if ok then old(caches).(b := Put(old(caches).b, u, BRecOf(built.g, u).value)) else old(caches)
    {
      var g := built.g;
      var kids := g.dau[u];
      var rec := BRec(if Abs(g.code[u]) == B0Lund then BFlavor.B0 else BFlavor.Bc, None, None);
      for i := 0 to |kids|
        invariant BRecOf(g, u) == BScan(g, kids[i..], rec)
      {
        var lund := g.code[kids[i]];
        if IsDOrDstarCode(lund) {
          rec := rec.(d := Some(kids[i]));
        } else if IsLeptonCode(lund) {
          rec := rec.(lepton := Some(kids[i]));
        } else {
          return false;
        }
        assert kids[i..][1..] == kids[i + 1..];
      }
      caches := caches.(b := Put(caches.b, u, rec));
      ok := true;
    }

    /** `AnalyzeY`: each B daughter becomes `tagB` when its lepton is a real
        lepton and `sigB` otherwise; a non-B daughter, or a B without a
        lepton, aborts. */
    method AnalyzeY(u: int) returns (ok: bool)
      requires Indexed(built.g, built.block) && u in built.g.code
      modifies this
      ensures built == old(built)
      ensures ok == YScan(built.g, old(caches), built.g.dau[u], FreshY).Ok?
      ensures caches == if ok then old(caches).(y := Put(old(caches).y, u, YScan(built.g, old(caches), built.g.dau[u], FreshY).value)) else old(caches)
    {
      var g := built.g;
      var kids := g.dau[u];
      var rec := FreshY;
      for i := 0 to |kids|
        invariant YScan(g, caches, kids, FreshY) == YScan(g, caches, kids[i..], rec)
      {
        var v := kids[i];
        if !IsBCode(g.code[v]) || BOf(caches, v).lepton.None? {
          return false;
        }
        if LeptonOf(caches, BOf(caches, v).lepton.value).lBlockIdx >= 0 {
          rec := rec.(tagB := Some(v));
        } else {
          rec := rec.(sigB := Some(v));
        }
        assert kids[i..][1..] == kids[i + 1..];
      }
      caches := caches.(y := Put(caches.y, u, rec));
      ok := true;
    }

    /** `finish_vertex`: the analysis the vertex's code selects. */
    method FinishVertex(u: int) returns (ok: bool)
      requires Indexed(built.g, built.block) && u in built.g.code
      modifies this
      ensures built == old(built)
      ensures ok == Finish(built.g, built.block, old(caches), u).Ok?
      ensures ok ==> caches == Finish(built.g, built.block, old(caches), u).value
    {
      ghost var spec := Finish(built.g, built.block, caches, u);
      match KindOf(built.g.code[u])
      case YKind =>
        ok := AnalyzeY(u);
        assert spec == if ok then Ok(caches) else Abort;
      case BKind =>
        ok := AnalyzeB(u);
        assert spec == if ok then Ok(caches) else Abort;
      case DstarKind =>
        ok := AnalyzeDstar(u);
        assert spec == if ok then Ok(caches) else Abort;
      case DKind =>
        ok := AnalyzeD(u);
        assert spec == if ok then Ok(caches) else Abort;
      case LeptonKind =>
        ok := AnalyzeLepton(u);
        assert spec == if ok then Ok(caches) else Abort;
      case OtherKind =>
        ok := true;
        assert spec == Ok(caches);
    }

    /** `analyze_graph`: clear the caches and finish every vertex in
        depth-first finish order. */
    method AnalyzeGraph() returns (ok: bool)
      requires Coherent(built)
      modifies this
      ensures built == old(built)
      ensures ok == Analysis(built.g, built.block).Ok?
      ensures ok ==> caches == Analysis(built.g, built.block).value
    {
      ClearAnalysis();
      var g, block := built.g, built.block;
      ghost var spec := Analysis(g, block);
      var rest := PostOrder(g);
      PostOrderInGraph(g);
      while rest != []
        invariant built.g == g && built.block == block
        invariant forall k :: 0 <= k < |rest| ==> rest[k] in g.code
        invariant spec == AnalyzeOrder(g, block, caches, rest)
        decreases |rest|
      {
        ok := FinishVertex(rest[0]);
        if !ok {
          return;
        }
        rest := rest[1..];
      }
      ok := true;
    }

    /** `get_recoY(i)`: the record of the i-th Y candidate; aborts when the
        candidate has no vertex or no record. */
    function GetRecoY(i: int): (r: Result<YRec>)
      reads this, indexer
      ensures var id := indexer.RecoIdx(UpsilonLund, i);
              r.Ok? <==> id in built.g.code && id in caches.y
      ensures var id := indexer.RecoIdx(UpsilonLund, i);
              r.Ok? ==> id in caches.y && r.value == caches.y[id]
    {
      var id := indexer.RecoIdx(UpsilonLund, i);
      if id !in built.g.code || id !in caches.y then Abort else Ok(caches.y[id])
    }

    /** After a successful analysis, the i-th Y candidate's record is
        available exactly when it has a vertex whose code is a Y code. */
    lemma GetRecoYAfterAnalysis(i: int)
      requires Coherent(built) && Analysis(built.g, built.block).Ok?
      requires caches == Analysis(built.g, built.block).value
      ensures GetRecoY(i).Ok? <==> CodeIs(built.g, IsYCode)(indexer.RecoIdx(UpsilonLund, i))
    {
      AnalysisKeys(built.g, built.block);
    }

    /** After a successful analysis of a graph without cycles, the i-th Y
        candidate's record is the Y scan of its daughters over the final
        caches: `tagB` is its last B daughter whose lepton has a lepton
        block index and `sigB` its last other B daughter. */
    lemma GetRecoYValue(i: int, rank: map<int, int>)
      requires Coherent(built) && Ranked(built.g, rank) && Analysis(built.g, built.block).Ok?
      requires caches == Analysis(built.g, built.block).value
      ensures var id := indexer.RecoIdx(UpsilonLund, i);
              GetRecoY(i).Ok? ==>
                && id in built.g.dau
                && YScan(built.g, caches, built.g.dau[id], FreshY) == GetRecoY(i)
                && GetRecoY(i).value.tagB == LastWhere(IsTagB(caches), built.g.dau[id])
                && GetRecoY(i).value.sigB == LastWhere(IsSigB(caches), built.g.dau[id])
    {
      var id := indexer.RecoIdx(UpsilonLund, i);
      if GetRecoY(i).Ok? {
        AnalysisYRecord(built.g, built.block, rank, id);
      }
    }
  }
}
