/** The reconstructed-particle graph: building it from the reader's candidate
    blocks and classifying its D, D*, lepton, B and Upsilon(4S) vertices
    bottom-up. A vertex is named by its reco index, so the map from reco
    index to vertex is the graph's own key set; the block index of each
    vertex is kept beside the graph. */
module RecoGraph {
  import opened Wrappers
  import opened Sorting
  import opened Defs
  import opened Catalogue
  import opened GraphDef
  import opened Graphs

  // ---------------------------------------------------------------------
  // Construction
  // ---------------------------------------------------------------------

  /** One candidate block as the reader buffers hold it: each candidate's
      code and, per daughter slot, the daughters' block indices (-1 marks an
      empty slot) and codes. Slot `j` of candidate `i` is
      `dauIdx[j][i]` / `dauLund[j][i]`. */
  datatype CandBlock = CandBlock(lund: seq<int>, dauIdx: seq<seq<int>>, dauLund: seq<seq<int>>)

  /** Every slot array covers every candidate of the block. */
  ghost predicate WellFormed(blk: CandBlock) {
    && |blk.dauIdx| == |blk.dauLund|
    && forall j :: 0 <= j < |blk.dauIdx| ==> |blk.dauIdx[j]| >= |blk.lund| && |blk.dauLund[j]| >= |blk.lund|
  }

  /** The graph together with the block index of every vertex. */
  datatype Built = Built(g: Graph, block: map<int, int>)

  const NothingBuilt := Built(EmptyGraph, map[])

  ghost predicate Coherent(b: Built) {
    Valid(b.g) && forall u :: u in b.block <==> u in b.g.code
  }

  /** `r` keeps every vertex of `b` with its code and block index, keeps the
      vertex order, and only appends to daughter lists. */
  ghost predicate Extends(b: Built, r: Built) {
    && |b.g.ids| <= |r.g.ids| && r.g.ids[..|b.g.ids|] == b.g.ids
    && (forall u :: u in b.g.code ==> u in r.g.code && r.g.code[u] == b.g.code[u])
    && (forall u :: u in b.block ==> u in r.block && r.block[u] == b.block[u])
    && (forall u :: u in b.g.dau ==>
          u in r.g.dau && |b.g.dau[u]| <= |r.g.dau[u]| && r.g.dau[u][..|b.g.dau[u]|] == b.g.dau[u])
  }

  lemma ExtendsTrans(a: Built, b: Built, c: Built)
    requires Extends(a, b) && Extends(b, c)
    ensures Extends(a, c)
  {
    assert c.g.ids[..|a.g.ids|] == c.g.ids[..|b.g.ids|][..|a.g.ids|];
    forall u | u in a.g.dau
      ensures c.g.dau[u][..|a.g.dau[u]|] == a.g.dau[u]
    {
      assert c.g.dau[u][..|a.g.dau[u]|] == c.g.dau[u][..|b.g.dau[u]|][..|a.g.dau[u]|];
    }
  }

  /** Every vertex has a daughter list. */
  ghost predicate Keyed(b: Built) {
    forall u :: u in b.g.code ==> u in b.g.dau
  }

  /** Insert-or-reuse: a reco index seen before keeps its vertex untouched;
      a new one gets a vertex with this code and block index. */
  function Touch(b: Built, id: int, blockIdx: int, lund: int): Built {
    if id in b.g.code then b
    else Built(AddVertex(b.g, id, lund), b.block[id := blockIdx])
  }

  lemma TouchCoherent(b: Built, id: int, blockIdx: int, lund: int)
    requires Coherent(b)
    ensures Coherent(Touch(b, id, blockIdx, lund)) && Extends(b, Touch(b, id, blockIdx, lund))
  {
    if id !in b.g.code {
      AddVertexValid(b.g, id, lund);
    }
  }

  /** The reco indices of candidate `i`'s daughters from slot `j` on. */
  function Scanned(ix: RecoIndexer, blk: CandBlock, i: nat, j: nat): (vs: seq<int>)
    requires WellFormed(blk) && i < |blk.lund| && j <= |blk.dauIdx|
    reads ix
    ensures j + |vs| <= |blk.dauIdx|
    decreases |blk.dauIdx| - j
  {
    if j == |blk.dauIdx| || blk.dauIdx[j][i] == -1 then []
    else [ix.RecoIdx(blk.dauLund[j][i], blk.dauIdx[j][i])] + Scanned(ix, blk, i, j + 1)
  }

  /** The scan takes the slots in order, one daughter per non-empty slot,
      and stops at the first empty slot: later slots are never read. */
  lemma {:induction false} ScannedStops(ix: RecoIndexer, blk: CandBlock, i: nat, j: nat)
    requires WellFormed(blk) && i < |blk.lund| && j <= |blk.dauIdx|
    ensures forall m :: j <= m < j + |Scanned(ix, blk, i, j)| ==>
              blk.dauIdx[m][i] != -1 &&
              Scanned(ix, blk, i, j)[m - j] == ix.RecoIdx(blk.dauLund[m][i], blk.dauIdx[m][i])
    ensures var n := j + |Scanned(ix, blk, i, j)|; n == |blk.dauIdx| || blk.dauIdx[n][i] == -1
    decreases |blk.dauIdx| - j
  {
    if j < |blk.dauIdx| && blk.dauIdx[j][i] != -1 {
      ScannedStops(ix, blk, i, j + 1);
      var rest := Scanned(ix, blk, i, j + 1);
      var vs := Scanned(ix, blk, i, j);
      assert vs == [ix.RecoIdx(blk.dauLund[j][i], blk.dauIdx[j][i])] + rest;
    }
  }

  /** The daughter-slot loop of candidate `i`, whose vertex is `u`. */
  function ScanSlots(ix: RecoIndexer, b: Built, blk: CandBlock, i: nat, u: int, j: nat): (r: Built)
    requires WellFormed(blk) && i < |blk.lund| && j <= |blk.dauIdx|
    requires Keyed(b) && u in b.g.code
    reads ix
    ensures Keyed(r) && u in r.g.code
    ensures forall w :: w in b.g.code ==> w in r.g.code
    decreases |blk.dauIdx| - j
  {
    if j == |blk.dauIdx| || blk.dauIdx[j][i] == -1 then b
    else
      var v := ix.RecoIdx(blk.dauLund[j][i], blk.dauIdx[j][i]);
      var b1 := Touch(b, v, blk.dauIdx[j][i], blk.dauLund[j][i]);
      ScanSlots(ix, Built(AddEdge(b1.g, u, v), b1.block), blk, i, u, j + 1)
  }

  /** One slot: the daughter is touched and the edge from `u` added. */
  lemma SlotStepCoherent(b: Built, u: int, v: int, blockIdx: int, lund: int)
    requires Coherent(b) && u in b.g.code
    ensures var b1 := Touch(b, v, blockIdx, lund);
            var b2 := Built(AddEdge(b1.g, u, v), b1.block);
            Coherent(b2) && Extends(b, b2) && u in b2.g.code
  {
    var b1 := Touch(b, v, blockIdx, lund);
    TouchCoherent(b, v, blockIdx, lund);
    var b2 := Built(AddEdge(b1.g, u, v), b1.block);
    AddEdgeValid(b1.g, u, v);
    assert Extends(b1, b2);
    ExtendsTrans(b, b1, b2);
  }

  lemma {:induction false} ScanSlotsCoherent(ix: RecoIndexer, b: Built, blk: CandBlock, i: nat, u: int, j: nat)
    requires WellFormed(blk) && i < |blk.lund| && j <= |blk.dauIdx|
    requires Coherent(b) && u in b.g.code
    ensures Coherent(ScanSlots(ix, b, blk, i, u, j)) && Extends(b, ScanSlots(ix, b, blk, i, u, j))
    decreases |blk.dauIdx| - j
  {
    if j < |blk.dauIdx| && blk.dauIdx[j][i] != -1 {
      var v := ix.RecoIdx(blk.dauLund[j][i], blk.dauIdx[j][i]);
      var b1 := Touch(b, v, blk.dauIdx[j][i], blk.dauLund[j][i]);
      var b2 := Built(AddEdge(b1.g, u, v), b1.block);
      SlotStepCoherent(b, u, v, blk.dauIdx[j][i], blk.dauLund[j][i]);
      ScanSlotsCoherent(ix, b2, blk, i, u, j + 1);
      ExtendsTrans(b, b2, ScanSlots(ix, b2, blk, i, u, j + 1));
    }
  }

  /** Exactly one edge per scanned slot is added, from `u`, in slot order. */
  lemma {:induction false} ScanSlotsEdges(ix: RecoIndexer, b: Built, blk: CandBlock, i: nat, u: int, j: nat)
    requires WellFormed(blk) && i < |blk.lund| && j <= |blk.dauIdx|
    requires Keyed(b) && u in b.g.code
    ensures ScanSlots(ix, b, blk, i, u, j).g.dau[u] == b.g.dau[u] + Scanned(ix, blk, i, j)
    decreases |blk.dauIdx| - j
  {
    if j < |blk.dauIdx| && blk.dauIdx[j][i] != -1 {
      var v := ix.RecoIdx(blk.dauLund[j][i], blk.dauIdx[j][i]);
      var b1 := Touch(b, v, blk.dauIdx[j][i], blk.dauLund[j][i]);
      var b2 := Built(AddEdge(b1.g, u, v), b1.block);
      ScanSlotsEdges(ix, b2, blk, i, u, j + 1);
      assert b2.g.dau[u] == b.g.dau[u] + [v];
      assert Scanned(ix, blk, i, j) == [v] + Scanned(ix, blk, i, j + 1);
    }
  }

  /** The slot loop of `u` adds no edge from any other existing vertex. */
  lemma {:induction false} ScanSlotsOnlyFromU(ix: RecoIndexer, b: Built, blk: CandBlock, i: nat, u: int, j: nat, w: int)
    requires WellFormed(blk) && i < |blk.lund| && j <= |blk.dauIdx|
    requires Keyed(b) && u in b.g.code
    requires w in b.g.code && w != u
    ensures w in ScanSlots(ix, b, blk, i, u, j).g.dau && ScanSlots(ix, b, blk, i, u, j).g.dau[w] == b.g.dau[w]
    decreases |blk.dauIdx| - j
  {
    if j < |blk.dauIdx| && blk.dauIdx[j][i] != -1 {
      var v := ix.RecoIdx(blk.dauLund[j][i], blk.dauIdx[j][i]);
      var b1 := Touch(b, v, blk.dauIdx[j][i], blk.dauLund[j][i]);
      ScanSlotsOnlyFromU(ix, Built(AddEdge(b1.g, u, v), b1.block), blk, i, u, j + 1, w);
    }
  }

  /** `AddCandidates` from candidate `i` on. */
  function AddCands(ix: RecoIndexer, b: Built, blk: CandBlock, i: nat): (r: Built)
    requires WellFormed(blk) && i <= |blk.lund| && Keyed(b)
    reads ix
    ensures Keyed(r)
    ensures forall w :: w in b.g.code ==> w in r.g.code
    decreases |blk.lund| - i
  {
    if i == |blk.lund| then b
    else
      var u := ix.RecoIdx(blk.lund[i], i);
      var b1 := Touch(b, u, i, blk.lund[i]);
      AddCands(ix, ScanSlots(ix, b1, blk, i, u, 0), blk, i + 1)
  }

  /** One candidate: its vertex is touched and its slots scanned. */
  lemma CandStepCoherent(ix: RecoIndexer, b: Built, blk: CandBlock, i: nat)
    requires WellFormed(blk) && i < |blk.lund| && Coherent(b)
    ensures var u := ix.RecoIdx(blk.lund[i], i);
            var b2 := ScanSlots(ix, Touch(b, u, i, blk.lund[i]), blk, i, u, 0);
            Coherent(b2) && Extends(b, b2)
  {
    var u := ix.RecoIdx(blk.lund[i], i);
    var b1 := Touch(b, u, i, blk.lund[i]);
    TouchCoherent(b, u, i, blk.lund[i]);
    ScanSlotsCoherent(ix, b1, blk, i, u, 0);
    ExtendsTrans(b, b1, ScanSlots(ix, b1, blk, i, u, 0));
  }

  lemma {:induction false} AddCandsCoherent(ix: RecoIndexer, b: Built, blk: CandBlock, i: nat)
    requires WellFormed(blk) && i <= |blk.lund| && Coherent(b)
    ensures Coherent(AddCands(ix, b, blk, i))
    decreases |blk.lund| - i
  {
    if i < |blk.lund| {
      var u := ix.RecoIdx(blk.lund[i], i);
      var b2 := ScanSlots(ix, Touch(b, u, i, blk.lund[i]), blk, i, u, 0);
      CandStepCoherent(ix, b, blk, i);
      AddCandsCoherent(ix, b2, blk, i + 1);
    }
  }

  lemma {:induction false} AddCandsExtends(ix: RecoIndexer, b: Built, blk: CandBlock, i: nat)
    requires WellFormed(blk) && i <= |blk.lund| && Coherent(b)
    ensures Extends(b, AddCands(ix, b, blk, i))
    decreases |blk.lund| - i
  {
    if i < |blk.lund| {
      var u := ix.RecoIdx(blk.lund[i], i);
      var b2 := ScanSlots(ix, Touch(b, u, i, blk.lund[i]), blk, i, u, 0);
      CandStepCoherent(ix, b, blk, i);
      AddCandsExtends(ix, b2, blk, i + 1);
      ExtendsTrans(b, b2, AddCands(ix, b2, blk, i + 1));
    }
  }

  /** Every daughter the slot loop scans gets a vertex. */
  lemma {:induction false} ScanSlotsTouches(ix: RecoIndexer, b: Built, blk: CandBlock, i: nat, u: int, j: nat)
    requires WellFormed(blk) && i < |blk.lund| && j <= |blk.dauIdx|
    requires Keyed(b) && u in b.g.code
    ensures forall v :: v in Scanned(ix, blk, i, j) ==> v in ScanSlots(ix, b, blk, i, u, j).g.code
    decreases |blk.dauIdx| - j
  {
    if j < |blk.dauIdx| && blk.dauIdx[j][i] != -1 {
      var v := ix.RecoIdx(blk.dauLund[j][i], blk.dauIdx[j][i]);
      var b1 := Touch(b, v, blk.dauIdx[j][i], blk.dauLund[j][i]);
      var b2 := Built(AddEdge(b1.g, u, v), b1.block);
      ScanSlotsTouches(ix, b2, blk, i, u, j + 1);
      assert v in b2.g.code;
      assert Scanned(ix, blk, i, j) == [v] + Scanned(ix, blk, i, j + 1);
    }
  }

  /** Every candidate of the block from `i` on ends up with a vertex. */
  lemma {:induction false} AddCandsHasCandidates(ix: RecoIndexer, b: Built, blk: CandBlock, i: nat)
    requires WellFormed(blk) && i <= |blk.lund| && Keyed(b)
    ensures forall k :: i <= k < |blk.lund| ==> ix.RecoIdx(blk.lund[k], k) in AddCands(ix, b, blk, i).g.code
    decreases |blk.lund| - i
  {
    if i < |blk.lund| {
      var u := ix.RecoIdx(blk.lund[i], i);
      var b1 := Touch(b, u, i, blk.lund[i]);
      var b2 := ScanSlots(ix, b1, blk, i, u, 0);
      AddCandsHasCandidates(ix, b2, blk, i + 1);
    }
  }

  /** Every daughter the scans reach ends up with a vertex. */
  lemma {:induction false} AddCandsHasDaughters(ix: RecoIndexer, b: Built, blk: CandBlock, i: nat)
    requires WellFormed(blk) && i <= |blk.lund| && Keyed(b)
    ensures forall k, v :: i <= k < |blk.lund| && v in Scanned(ix, blk, k, 0) ==> v in AddCands(ix, b, blk, i).g.code
    decreases |blk.lund| - i
  {
    if i < |blk.lund| {
      var u := ix.RecoIdx(blk.lund[i], i);
      var b1 := Touch(b, u, i, blk.lund[i]);
      var b2 := ScanSlots(ix, b1, blk, i, u, 0);
      var r := AddCands(ix, b2, blk, i + 1);
      ScanSlotsTouches(ix, b1, blk, i, u, 0);
      AddCandsHasDaughters(ix, b2, blk, i + 1);
      forall k, v | i <= k < |blk.lund| && v in Scanned(ix, blk, k, 0) ensures v in r.g.code {
        if k == i {
          assert v in b2.g.code;
        }
      }
    }
  }
}
