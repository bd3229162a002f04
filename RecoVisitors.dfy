/** The bottom-up classification of the reconstructed graph: what
    `finish_vertex` caches for each D, D*, lepton, B and Upsilon(4S)
    vertex, and the order in which the records become available. */
module RecoGraphVisitors {
  import opened Wrappers
  import opened Sorting
  import opened Defs
  import opened Catalogue
  import opened GraphDef
  import opened Graphs

  // ---------------------------------------------------------------------
  // Analysis: the records cached per vertex
  // ---------------------------------------------------------------------

  /** The four caches of the manager, keyed by vertex. */
  datatype Caches = Caches(y: map<int, YRec>, b: map<int, BRec>, d: map<int, DRec>, lepton: map<int, LeptonRec>)

  const NoCaches := Caches(map[], map[], map[], map[])

  /** `std::map::insert`: an existing entry is kept, a new key gets `v`. */
  function Put<V>(m: map<int, V>, k: int, v: V): (r: map<int, V>)
    ensures k in r && r.Keys == m.Keys + {k}
    ensures forall w :: w in m ==> r[w] == m[w]
    ensures k !in m ==> r[k] == v
  {
    if k in m then m else m[k := v]
  }

  /** The branch of `finish_vertex`'s switch on the magnitude of a code. */
  datatype Kind = YKind | BKind | DstarKind | DKind | LeptonKind | OtherKind

  function KindOf(lund: int): Kind {
    var a := Abs(lund);
    if a == UpsilonLund then YKind
    else if a == B0Lund || a == BcLund then BKind
    else if a == Dstar0Lund || a == DstarcLund then DstarKind
    else if a == D0Lund || a == DcLund then DKind
    else if a == piLund || a == rhoLund || a == eLund || a == muLund then LeptonKind
    else OtherKind
  }

  predicate IsYCode(lund: int) { KindOf(lund) == YKind }
  predicate IsBCode(lund: int) { KindOf(lund) == BKind }
  predicate IsDstarCode(lund: int) { KindOf(lund) == DstarKind }
  predicate IsDCode(lund: int) { KindOf(lund) == DKind }
  /** A D or D* daughter of a B. */
  predicate IsDOrDstarCode(lund: int) { IsDCode(lund) || IsDstarCode(lund) }
  /** A lepton or tau stand-in: pi, rho, e or mu. */
  predicate IsLeptonCode(lund: int) { KindOf(lund) == LeptonKind }
  /** The codes `finish_vertex` dispatches on. */
  predicate IsAnalysedCode(lund: int) { KindOf(lund) != OtherKind }

  /** The kinds are the magnitudes the switch lists. */
  lemma KindOfCodes(lund: int)
    ensures IsYCode(lund) <==> Abs(lund) == UpsilonLund
    ensures IsBCode(lund) <==> Abs(lund) == B0Lund || Abs(lund) == BcLund
    ensures IsDstarCode(lund) <==> Abs(lund) == Dstar0Lund || Abs(lund) == DstarcLund
    ensures IsDCode(lund) <==> Abs(lund) == D0Lund || Abs(lund) == DcLund
    ensures IsLeptonCode(lund) <==>
              Abs(lund) == piLund || Abs(lund) == rhoLund || Abs(lund) == eLund || Abs(lund) == muLund
  {
  }

  /** A daughter a D* may have: D, pi, pi0 or gamma. */
  predicate IsDstarDaughterCode(lund: int) {
    IsDCode(lund) || Abs(lund) == piLund || Abs(lund) == pi0Lund || Abs(lund) == gammaLund
  }

  // Reading a record through `operator[]`: an absent key reads as a fresh
  // record (in a graph without cycles every daughter's record is already
  // present, see DaughterRecordsReady).
  function DOf(c: Caches, v: int): DRec { if v in c.d then c.d[v] else FreshD }
  function LeptonOf(c: Caches, v: int): LeptonRec { if v in c.lepton then c.lepton[v] else FreshLepton }
  function BOf(c: Caches, v: int): BRec { if v in c.b then c.b[v] else FreshB }

  /** The code of a vertex (0 off the graph, which never happens for a
      daughter of a valid graph). */
  function CodeFn(g: Graph): int -> int {
    v => if v in g.code then g.code[v] else 0
  }

  /** Vertex `v` is in the graph and its code satisfies `p`. */
  function CodeIs(g: Graph, p: int -> bool): int -> bool {
    v => v in g.code && p(g.code[v])
  }

  /** The code of `u` followed by its daughters' codes in edge order: the
      list the D and D* visitors hand to the catalogue. */
  function OwnAndDaughterCodes(g: Graph, u: int): seq<int>
    requires u in g.code && u in g.dau
  {
    [g.code[u]] + MapSeq(CodeFn(g), g.dau[u])
  }

  /** The codes of `kids`, in order. */
  function Codes(g: Graph, kids: seq<int>): seq<int>
    requires forall k :: 0 <= k < |kids| ==> kids[k] in g.code
  {
    if kids == [] then [] else [g.code[kids[0]]] + Codes(g, kids[1..])
  }

  lemma {:induction false} CodesAreMapped(g: Graph, kids: seq<int>)
    requires forall k :: 0 <= k < |kids| ==> kids[k] in g.code
    ensures Codes(g, kids) == MapSeq(CodeFn(g), kids)
  {
    if kids != [] {
      CodesAreMapped(g, kids[1..]);
      assert kids == [kids[0]] + kids[1..];
      MapSeqCons(CodeFn(g), kids[0], kids[1..]);
    }
  }

  /** The last element of `s` that satisfies `p`. */
  function LastWhere(p: int -> bool, s: seq<int>): (r: Option<int>)
    ensures r.Some? ==> r.value in s && p(r.value)
    ensures r.None? <==> forall k :: 0 <= k < |s| ==> !p(s[k])
  {
    if s == [] then None
    else if p(s[|s| - 1]) then Some(s[|s| - 1])
    else
      var r := LastWhere(p, s[..|s| - 1]);
      assert forall k :: 0 <= k < |s| - 1 ==> s[..|s| - 1][k] == s[k];
      r
  }

  /** The last match of `[x] + s` is the last match of `s` when there is
      one, else `x` if it matches. */
  lemma {:induction false} LastWhereCons(p: int -> bool, x: int, s: seq<int>)
    ensures LastWhere(p, [x] + s) == if LastWhere(p, s).Some? then LastWhere(p, s) else if p(x) then Some(x) else None
  {
    if s != [] {
      var n := |s| - 1;
      assert ([x] + s)[..|[x] + s| - 1] == [x] + s[..n];
      LastWhereCons(p, x, s[..n]);
    }
  }

  /** The first element of `s` that satisfies `p`. */
  function FirstWhere(p: int -> bool, s: seq<int>): (r: Option<int>)
    ensures r.Some? ==> r.value in s && p(r.value)
  {
    if s == [] then None
    else if p(s[0]) then Some(s[0])
    else FirstWhere(p, s[1..])
  }

  /** `FirstWhere` returns the element at the first matching position. */
  lemma {:induction false} FirstWhereIsFirst(p: int -> bool, s: seq<int>, k: nat)
    requires k < |s| && p(s[k]) && forall k' :: 0 <= k' < k ==> !p(s[k'])
    ensures FirstWhere(p, s) == Some(s[k])
  {
    if k > 0 {
      FirstWhereIsFirst(p, s[1..], k - 1);
    }
  }

  lemma {:induction false} FirstWhereNone(p: int -> bool, s: seq<int>)
    requires forall k :: 0 <= k < |s| ==> !p(s[k])
    ensures FirstWhere(p, s) == None
  {
    if s != [] {
      FirstWhereNone(p, s[1..]);
    }
  }

  // --- D ---

  /** `AnalyzeD`: the mode of the D's own code plus all its daughters'. */
  function DRecOfD(g: Graph, u: int): Result<DRec>
    requires u in g.code && u in g.dau
  {
    var mode :- SearchD(OwnAndDaughterCodes(g, u));
    Ok(DRec(mode, NoDstar))
  }

  /** The D record does not depend on the order in which the daughters'
      edges were added. */
  lemma DRecIgnoresDaughterOrder(g: Graph, h: Graph, u: int)
    requires u in g.code && u in g.dau && u in h.code && u in h.dau
    requires g.code == h.code && multiset(g.dau[u]) == multiset(h.dau[u])
    ensures DRecOfD(g, u) == DRecOfD(h, u)
  {
    MapSeqPermutation(CodeFn(g), g.dau[u], h.dau[u]);
    assert CodeFn(g) == CodeFn(h);
    var lg, lh := OwnAndDaughterCodes(g, u), OwnAndDaughterCodes(h, u);
    assert multiset(lg) == multiset(lh);
    SearchRecoPermutation(lg, lh);
  }

  // --- D* ---

  /** The daughter loop of `AnalyzeDstar` from the current D mode and code
      list: a D daughter's cached mode is copied and (falling through) its
      code appended; pi, pi0 and gamma codes are appended; anything else
      aborts. */
  function DstarScan(g: Graph, c: Caches, kids: seq<int>, dMode: DType, lunds: seq<int>): Result<(DType, seq<int>)>
    requires forall k :: 0 <= k < |kids| ==> kids[k] in g.code
  {
    if kids == [] then Ok((dMode, lunds))
    else
      var lund := g.code[kids[0]];
      if !IsDstarDaughterCode(lund) then Abort
      else DstarScan(g, c, kids[1..], if IsDCode(lund) then DOf(c, kids[0]).dMode else dMode, lunds + [lund])
  }

  /** The scan succeeds exactly when every daughter is a D, pi, pi0 or
      gamma. */
  lemma {:induction false} DstarScanOk(g: Graph, c: Caches, kids: seq<int>, dMode: DType, lunds: seq<int>)
    requires forall k :: 0 <= k < |kids| ==> kids[k] in g.code
    ensures DstarScan(g, c, kids, dMode, lunds).Ok? <==> forall k :: 0 <= k < |kids| ==> IsDstarDaughterCode(g.code[kids[k]])
  {
    if kids != [] {
      var v := kids[0];
      var lund := g.code[v];
      var dMode' := if IsDCode(lund) then DOf(c, v).dMode else dMode;
      DstarScanOk(g, c, kids[1..], dMode', lunds + [lund]);
      if DstarScan(g, c, kids, dMode, lunds).Ok? {
        assert forall k :: 1 <= k < |kids| ==> kids[k] == kids[1..][k - 1];
      } else if IsDstarDaughterCode(lund) {
        var k :| 0 <= k < |kids[1..]| && !IsDstarDaughterCode(g.code[kids[1..][k]]);
        assert kids[1..][k] == kids[k + 1];
      }
    }
  }

  /** A successful scan appends every daughter's code to the list. */
  lemma {:induction false} DstarScanCodes(g: Graph, c: Caches, kids: seq<int>, dMode: DType, lunds: seq<int>)
    requires forall k :: 0 <= k < |kids| ==> kids[k] in g.code
    requires DstarScan(g, c, kids, dMode, lunds).Ok?
    ensures DstarScan(g, c, kids, dMode, lunds).value.1 == lunds + Codes(g, kids)
  {
    if kids != [] {
      var v := kids[0];
      var lund := g.code[v];
      var dMode' := if IsDCode(lund) then DOf(c, v).dMode else dMode;
      DstarScanCodes(g, c, kids[1..], dMode', lunds + [lund]);
      assert (lunds + [lund]) + Codes(g, kids[1..]) == lunds + ([lund] + Codes(g, kids[1..]));
    }
  }

  /** After a successful scan the D mode is the one cached for the last D
      daughter, or unchanged when there is none. */
  lemma {:induction false} DstarScanMode(g: Graph, c: Caches, kids: seq<int>, dMode: DType, lunds: seq<int>)
    requires forall k :: 0 <= k < |kids| ==> kids[k] in g.code
    requires DstarScan(g, c, kids, dMode, lunds).Ok?
    ensures var last := LastWhere(CodeIs(g, IsDCode), kids);
            DstarScan(g, c, kids, dMode, lunds).value.0 == if last.Some? then DOf(c, last.value).dMode else dMode
  {
    if kids != [] {
      var v := kids[0];
      var lund := g.code[v];
      var dMode' := if IsDCode(lund) then DOf(c, v).dMode else dMode;
      assert DstarScan(g, c, kids, dMode, lunds) == DstarScan(g, c, kids[1..], dMode', lunds + [lund]);
      DstarScanMode(g, c, kids[1..], dMode', lunds + [lund]);
      assert kids == [v] + kids[1..];
      LastWhereCons(CodeIs(g, IsDCode), v, kids[1..]);
    }
  }

  /** `AnalyzeDstar`: the D mode of the D daughter and the D* mode of the
      D*'s own code plus every daughter code. */
  function DstarRecOf(g: Graph, c: Caches, u: int): Result<DRec>
    requires u in g.code && u in g.dau
    requires forall k :: 0 <= k < |g.dau[u]| ==> g.dau[u][k] in g.code
  {
    var scan :- DstarScan(g, c, g.dau[u], FreshD.dMode, [g.code[u]]);
    var mode :- SearchDstar(scan.1);
    Ok(DRec(scan.0, mode))
  }

  /** A D* record exists exactly when every daughter is a D, pi, pi0 or
      gamma and the D* table accepts the codes; its D* mode is the lookup of
      the D*'s own code and all daughter codes (the D's included), and its D
      mode is the one cached for its last D daughter. */
  lemma DstarRecOfResult(g: Graph, c: Caches, u: int)
    requires u in g.code && u in g.dau
    requires forall k :: 0 <= k < |g.dau[u]| ==> g.dau[u][k] in g.code
    ensures DstarRecOf(g, c, u).Ok? <==>
              (forall k :: 0 <= k < |g.dau[u]| ==> IsDstarDaughterCode(g.code[g.dau[u][k]])) &&
              SearchDstar(OwnAndDaughterCodes(g, u)).Ok?
    ensures DstarRecOf(g, c, u).Ok? ==>
              var last := LastWhere(CodeIs(g, IsDCode), g.dau[u]);
              && DstarRecOf(g, c, u).value.dstarMode == SearchDstar(OwnAndDaughterCodes(g, u)).value
              && DstarRecOf(g, c, u).value.dMode == if last.Some? then DOf(c, last.value).dMode else FreshD.dMode
  {
    var kids := g.dau[u];
    DstarScanOk(g, c, kids, FreshD.dMode, [g.code[u]]);
    if DstarScan(g, c, kids, FreshD.dMode, [g.code[u]]).Ok? {
      DstarScanCodes(g, c, kids, FreshD.dMode, [g.code[u]]);
      DstarScanMode(g, c, kids, FreshD.dMode, [g.code[u]]);
      CodesAreMapped(g, kids);
    }
  }

  // --- Leptons ---

  /** `AnalyzeLepton`. The electron case falls through into the muon case,
      so an electron is labelled `tau_mu` exactly like a muon. A rho takes
      the pion block index of its first charged-pion daughter (-1 when it
      has none). */
  function LeptonRecOf(g: Graph, block: map<int, int>, c: Caches, u: int): (r: LeptonRec)
    requires u in g.code && u in g.dau && u in block && IsLeptonCode(g.code[u])
    requires forall k :: 0 <= k < |g.dau[u]| ==> g.dau[u][k] in g.code
    ensures r.tauMode == TauType.tau_mu <==> Abs(g.code[u]) == eLund || Abs(g.code[u]) == muLund
    ensures r.tauMode == TauType.tau_pi <==> Abs(g.code[u]) == piLund
    ensures r.tauMode == TauType.tau_rho <==> Abs(g.code[u]) == rhoLund
    ensures r.lBlockIdx == if r.tauMode == TauType.tau_mu then block[u] else -1
    ensures r.tauMode == TauType.tau_mu ==> r.piBlockIdx == -1
    ensures r.tauMode == TauType.tau_pi ==> r.piBlockIdx == block[u]
    ensures r.tauMode == TauType.tau_rho ==>
              var pion := FirstWhere(CodeIs(g, p => Abs(p) == piLund), g.dau[u]);
              r.piBlockIdx == if pion.Some? then LeptonOf(c, pion.value).piBlockIdx else -1
  {
    var a := Abs(g.code[u]);
    if a == eLund || a == muLund then
      LeptonRec(block[u], -1, TauType.tau_mu)
    else if a == piLund then
      LeptonRec(-1, block[u], TauType.tau_pi)
    else
      var pion := FirstWhere(CodeIs(g, p => Abs(p) == piLund), g.dau[u]);
      LeptonRec(-1, if pion.Some? then LeptonOf(c, pion.value).piBlockIdx else FreshLepton.piBlockIdx, TauType.tau_rho)
  }

  // --- B ---

  /** The daughter loop of `AnalyzeB`: a D or D* daughter becomes `d`, a
      lepton or stand-in becomes `lepton` (a later one replacing an earlier
      one), anything else aborts. */
  function BScan(g: Graph, kids: seq<int>, r: BRec): Result<BRec>
    requires forall k :: 0 <= k < |kids| ==> kids[k] in g.code
  {
    if kids == [] then Ok(r)
    else
      var lund := g.code[kids[0]];
      if !(IsDOrDstarCode(lund) || IsLeptonCode(lund)) then Abort
      else BScan(g, kids[1..], if IsDOrDstarCode(lund) then r.(d := Some(kids[0])) else r.(lepton := Some(kids[0])))
  }

  /** `AnalyzeB`: flavor B0 exactly for code +-511, otherwise Bc. */
  function BRecOf(g: Graph, u: int): Result<BRec>
    requires u in g.code && u in g.dau
    requires forall k :: 0 <= k < |g.dau[u]| ==> g.dau[u][k] in g.code
  {
    BScan(g, g.dau[u], BRec(if Abs(g.code[u]) == B0Lund then BFlavor.B0 else BFlavor.Bc, None, None))
  }

  /** The B scan succeeds exactly when every daughter is a D, D* or
      lepton. */
  lemma {:induction false} BScanOk(g: Graph, kids: seq<int>, r: BRec)
    requires forall k :: 0 <= k < |kids| ==> kids[k] in g.code
    ensures BScan(g, kids, r).Ok? <==>
              forall k :: 0 <= k < |kids| ==> IsDOrDstarCode(g.code[kids[k]]) || IsLeptonCode(g.code[kids[k]])
  {
    if kids != [] {
      var v := kids[0];
      var lund := g.code[v];
      var r' := if IsDOrDstarCode(lund) then r.(d := Some(v)) else r.(lepton := Some(v));
      BScanOk(g, kids[1..], r');
      if BScan(g, kids, r).Ok? {
        assert forall k :: 1 <= k < |kids| ==> kids[k] == kids[1..][k - 1];
      } else if IsDOrDstarCode(lund) || IsLeptonCode(lund) {
        var k :| 0 <= k < |kids[1..]| && !(IsDOrDstarCode(g.code[kids[1..][k]]) || IsLeptonCode(g.code[kids[1..][k]]));
        assert kids[1..][k] == kids[k + 1];
      }
    }
  }

  /** After a successful B scan `d` refers to the last D/D* daughter and
      `lepton` to the last lepton daughter; the flavor is untouched. */
  lemma {:induction false} BScanValue(g: Graph, kids: seq<int>, r: BRec)
    requires forall k :: 0 <= k < |kids| ==> kids[k] in g.code
    requires BScan(g, kids, r).Ok?
    ensures var res := BScan(g, kids, r).value;
            var lastD := LastWhere(CodeIs(g, IsDOrDstarCode), kids);
            var lastL := LastWhere(CodeIs(g, IsLeptonCode), kids);
            && res.flavor == r.flavor
            && res.d == (if lastD.Some? then lastD else r.d)
            && res.lepton == (if lastL.Some? then lastL else r.lepton)
  {
    if kids != [] {
      var v := kids[0];
      var lund := g.code[v];
      var r' := if IsDOrDstarCode(lund) then r.(d := Some(v)) else r.(lepton := Some(v));
      BScanValue(g, kids[1..], r');
      assert kids == [v] + kids[1..];
      LastWhereCons(CodeIs(g, IsDOrDstarCode), v, kids[1..]);
      LastWhereCons(CodeIs(g, IsLeptonCode), v, kids[1..]);
    }
  }

  // --- Upsilon(4S) ---

  /** A B daughter is the tag side when its lepton record has a lepton
      block index. */
  function IsTagB(c: Caches): int -> bool {
    v => BOf(c, v).lepton.Some? && LeptonOf(c, BOf(c, v).lepton.value).lBlockIdx >= 0
  }

  /** Every other B daughter is the signal side. */
  function IsSigB(c: Caches): int -> bool {
    v => !IsTagB(c)(v)
  }

  /** The daughter loop of `AnalyzeY`. A B daughter without a lepton
      reference is a null dereference in the source and aborts here;
      a non-B daughter aborts. */
  function YScan(g: Graph, c: Caches, kids: seq<int>, r: YRec): Result<YRec>
    requires forall k :: 0 <= k < |kids| ==> kids[k] in g.code
  {
    if kids == [] then Ok(r)
    else
      var v := kids[0];
      if !IsBCode(g.code[v]) || BOf(c, v).lepton.None? then Abort
      else YScan(g, c, kids[1..], if IsTagB(c)(v) then r.(tagB := Some(v)) else r.(sigB := Some(v)))
  }

  /** The Y scan succeeds exactly when every daughter is a B with a
      lepton. */
  lemma {:induction false} YScanOk(g: Graph, c: Caches, kids: seq<int>, r: YRec)
    requires forall k :: 0 <= k < |kids| ==> kids[k] in g.code
    ensures YScan(g, c, kids, r).Ok? <==>
              forall k :: 0 <= k < |kids| ==> IsBCode(g.code[kids[k]]) && BOf(c, kids[k]).lepton.Some?
  {
    if kids != [] {
      var v := kids[0];
      var r' := if IsTagB(c)(v) then r.(tagB := Some(v)) else r.(sigB := Some(v));
      YScanOk(g, c, kids[1..], r');
      if YScan(g, c, kids, r).Ok? {
        assert forall k :: 1 <= k < |kids| ==> kids[k] == kids[1..][k - 1];
      } else if IsBCode(g.code[v]) && BOf(c, v).lepton.Some? {
        var k :| 0 <= k < |kids[1..]| && !(IsBCode(g.code[kids[1..][k]]) && BOf(c, kids[1..][k]).lepton.Some?);
        assert kids[1..][k] == kids[k + 1];
      }
    }
  }

  /** After a successful Y scan `tagB` is the last B whose lepton is a real
      lepton and `sigB` the last other B. */
  lemma {:induction false} YScanValue(g: Graph, c: Caches, kids: seq<int>, r: YRec)
    requires forall k :: 0 <= k < |kids| ==> kids[k] in g.code
    requires YScan(g, c, kids, r).Ok?
    ensures var res := YScan(g, c, kids, r).value;
            var lastTag := LastWhere(IsTagB(c), kids);
            var lastSig := LastWhere(IsSigB(c), kids);
            && res.tagB == (if lastTag.Some? then lastTag else r.tagB)
            && res.sigB == (if lastSig.Some? then lastSig else r.sigB)
  {
    if kids != [] {
      var v := kids[0];
      var r' := if IsTagB(c)(v) then r.(tagB := Some(v)) else r.(sigB := Some(v));
      YScanValue(g, c, kids[1..], r');
      assert kids == [v] + kids[1..];
      LastWhereCons(IsTagB(c), v, kids[1..]);
      LastWhereCons(IsSigB(c), v, kids[1..]);
    }
  }

  // ---------------------------------------------------------------------
  // finish_vertex and the traversal
  // ---------------------------------------------------------------------

  /** Every vertex has a block index. */
  ghost predicate Indexed(g: Graph, block: map<int, int>) {
    Valid(g) && forall u :: u in g.code ==> u in block
  }

  /** The record `finish_vertex` computes for one vertex, tagged with the
      cache it goes to. */
  datatype Record = YR(y: YRec) | BR(b: BRec) | DR(d: DRec) | LR(lepton: LeptonRec) | NoRecord

  /** The kind of record each kind of vertex gets. */
  predicate Fits(kind: Kind, rec: Record) {
    match kind
    case YKind => rec.YR?
    case BKind => rec.BR?
    case DstarKind => rec.DR?
    case DKind => rec.DR?
    case LeptonKind => rec.LR?
    case OtherKind => rec.NoRecord?
  }

  /** The switch of `finish_vertex` on the magnitude of `u`'s code: the
      analysis of a Y, B, D*, D or lepton vertex; nothing for the others. */
  function RecordOf(g: Graph, block: map<int, int>, c: Caches, u: int): (r: Result<Record>)
    requires Indexed(g, block) && u in g.code
    ensures r.Ok? ==> Fits(KindOf(g.code[u]), r.value)
    ensures KindOf(g.code[u]) == OtherKind ==> r == Ok(NoRecord)
  {
    match KindOf(g.code[u])
    case YKind =>
      var y :- YScan(g, c, g.dau[u], FreshY);
      Ok(YR(y))
    case BKind =>
      var b :- BRecOf(g, u);
      Ok(BR(b))
    case DstarKind =>
      var d :- DstarRecOf(g, c, u);
      Ok(DR(d))
    case DKind =>
      var d :- DRecOfD(g, u);
      Ok(DR(d))
    case LeptonKind =>
      Ok(LR(LeptonRecOf(g, block, c, u)))
    case OtherKind =>
      Ok(NoRecord)
  }

  /** The `insert` into the cache the record belongs to. */
  function Store(c: Caches, u: int, rec: Record): (r: Caches)
    ensures forall v :: v in r.y <==> v in c.y || (v == u && rec.YR?)
    ensures forall v :: v in r.b <==> v in c.b || (v == u && rec.BR?)
    ensures forall v :: v in r.d <==> v in c.d || (v == u && rec.DR?)
    ensures forall v :: v in r.lepton <==> v in c.lepton || (v == u && rec.LR?)
    ensures forall v :: v in c.y ==> r.y[v] == c.y[v]
    ensures forall v :: v in c.b ==> r.b[v] == c.b[v]
    ensures forall v :: v in c.d ==> r.d[v] == c.d[v]
    ensures forall v :: v in c.lepton ==> r.lepton[v] == c.lepton[v]
  {
    match rec
    case YR(y) => c.(y := Put(c.y, u, y))
    case BR(b) => c.(b := Put(c.b, u, b))
    case DR(d) => c.(d := Put(c.d, u, d))
    case LR(l) => c.(lepton := Put(c.lepton, u, l))
    case NoRecord => c
  }

  /** `finish_vertex(u)`. */
  function Finish(g: Graph, block: map<int, int>, c: Caches, u: int): Result<Caches>
    requires Indexed(g, block) && u in g.code
  {
    var rec :- RecordOf(g, block, c, u);
    Ok(Store(c, u, rec))
  }

  /** Finishing `u` adds `u` to the one cache of its kind and to no other,
      and never replaces a record already cached; a vertex of no analysed
      kind leaves the caches as they were. */
  lemma FinishKeys(g: Graph, block: map<int, int>, c: Caches, u: int)
    requires Indexed(g, block) && u in g.code
    requires Finish(g, block, c, u).Ok?
    ensures var r := Finish(g, block, c, u).value;
            && (forall v :: v in r.y <==> v in c.y || (v == u && IsYCode(g.code[u])))
            && (forall v :: v in r.b <==> v in c.b || (v == u && IsBCode(g.code[u])))
            && (forall v :: v in r.d <==> v in c.d || (v == u && IsDOrDstarCode(g.code[u])))
            && (forall v :: v in r.lepton <==> v in c.lepton || (v == u && IsLeptonCode(g.code[u])))
    ensures var r := Finish(g, block, c, u).value;
            && (forall v :: v in c.y ==> r.y[v] == c.y[v])
            && (forall v :: v in c.b ==> r.b[v] == c.b[v])
            && (forall v :: v in c.d ==> r.d[v] == c.d[v])
            && (forall v :: v in c.lepton ==> r.lepton[v] == c.lepton[v])
    ensures !IsAnalysedCode(g.code[u]) ==> Finish(g, block, c, u) == Ok(c)
  {
    var rec := RecordOf(g, block, c, u).value;
    assert Fits(KindOf(g.code[u]), rec);
  }

  /** `finish_vertex` over the vertices of `order`, first to last. */
  function AnalyzeOrder(g: Graph, block: map<int, int>, c: Caches, order: seq<int>): Result<Caches>
    requires Indexed(g, block) && forall k :: 0 <= k < |order| ==> order[k] in g.code
    decreases |order|
  {
    if order == [] then Ok(c)
    else
      var c1 :- Finish(g, block, c, order[0]);
      AnalyzeOrder(g, block, c1, order[1..])
  }

  /** `analyze_graph`: empty caches, then `finish_vertex` in depth-first
      finish order. */
  function Analysis(g: Graph, block: map<int, int>): Result<Caches>
    requires Indexed(g, block)
  {
    var order := PostOrder(g);
    assert forall k :: 0 <= k < |order| ==> order[k] in g.code by {
      forall k | 0 <= k < |order| ensures order[k] in g.code {
        assert order[k] in order;
      }
    }
    AnalyzeOrder(g, block, NoCaches, order)
  }

  /** Analysing `s + t` is analysing `s`, then `t` from the caches `s`
      left. */
  lemma {:induction false} AnalyzeOrderAppend(g: Graph, block: map<int, int>, c: Caches, s: seq<int>, t: seq<int>)
    requires Indexed(g, block)
    requires forall k :: 0 <= k < |s| ==> s[k] in g.code
    requires forall k :: 0 <= k < |t| ==> t[k] in g.code
    ensures forall k :: 0 <= k < |s + t| ==> (s + t)[k] in g.code
    ensures AnalyzeOrder(g, block, c, s + t) ==
              if AnalyzeOrder(g, block, c, s).Abort? then Abort
              else AnalyzeOrder(g, block, AnalyzeOrder(g, block, c, s).value, t)
    decreases |s|
  {
    assert forall k :: 0 <= k < |s + t| ==> (s + t)[k] in g.code by {
      forall k | 0 <= k < |s + t| ensures (s + t)[k] in g.code {
        if k < |s| {
          assert (s + t)[k] == s[k];
        } else {
          assert (s + t)[k] == t[k - |s|];
        }
      }
    }
    if s == [] {
      assert s + t == t;
    } else {
      assert (s + t)[0] == s[0];
      assert (s + t)[1..] == s[1..] + t;
      assert forall k :: 0 <= k < |s[1..]| ==> s[1..][k] in g.code by {
        forall k | 0 <= k < |s[1..]| ensures s[1..][k] in g.code {
          assert s[1..][k] == s[k + 1];
        }
      }
      var f := Finish(g, block, c, s[0]);
      if f.Ok? {
        AnalyzeOrderAppend(g, block, f.value, s[1..], t);
      }
    }
  }

  /** After a successful run over `order` a cache holds exactly the
      vertices it held before plus the vertices of `order` of its kind. */
  lemma {:induction false} AnalyzeOrderKeys(g: Graph, block: map<int, int>, c: Caches, order: seq<int>)
    requires Indexed(g, block) && forall k :: 0 <= k < |order| ==> order[k] in g.code
    requires AnalyzeOrder(g, block, c, order).Ok?
    ensures var r := AnalyzeOrder(g, block, c, order).value;
            && (forall v :: v in r.y <==> v in c.y || (v in order && CodeIs(g, IsYCode)(v)))
            && (forall v :: v in r.b <==> v in c.b || (v in order && CodeIs(g, IsBCode)(v)))
            && (forall v :: v in r.d <==> v in c.d || (v in order && CodeIs(g, IsDOrDstarCode)(v)))
            && (forall v :: v in r.lepton <==> v in c.lepton || (v in order && CodeIs(g, IsLeptonCode)(v)))
    decreases |order|
  {
    if order != [] {
      var u := order[0];
      var c1 := Finish(g, block, c, u).value;
      FinishKeys(g, block, c, u);
      assert forall k :: 0 <= k < |order[1..]| ==> order[1..][k] in g.code by {
        forall k | 0 <= k < |order[1..]| ensures order[1..][k] in g.code {
          assert order[1..][k] == order[k + 1];
        }
      }
      AnalyzeOrderKeys(g, block, c1, order[1..]);
      assert order == [u] + order[1..];
    }
  }

  /** A successful analysis caches a record for exactly the Y, B, D/D* and
      lepton vertices of the graph. */
  lemma AnalysisKeys(g: Graph, block: map<int, int>)
    requires Indexed(g, block) && Analysis(g, block).Ok?
    ensures var r := Analysis(g, block).value;
            && (forall v :: v in r.y <==> CodeIs(g, IsYCode)(v))
            && (forall v :: v in r.b <==> CodeIs(g, IsBCode)(v))
            && (forall v :: v in r.d <==> CodeIs(g, IsDOrDstarCode)(v))
            && (forall v :: v in r.lepton <==> CodeIs(g, IsLeptonCode)(v))
  {
    var order := PostOrder(g);
    assert forall k :: 0 <= k < |order| ==> order[k] in g.code by {
      forall k | 0 <= k < |order| ensures order[k] in g.code {
        assert order[k] in order;
      }
    }
    AnalyzeOrderKeys(g, block, NoCaches, order);
  }

  /** In a graph without cycles every daughter of the k-th finished
      vertex is among the vertices finished before it. */
  lemma DaughtersFinishedBefore(g: Graph, rank: map<int, int>, k: nat)
    requires Valid(g) && Ranked(g, rank)
    requires k < |PostOrder(g)|
    ensures PostOrder(g)[k] in g.dau
    ensures forall j :: 0 <= j < |g.dau[PostOrder(g)[k]]| ==> g.dau[PostOrder(g)[k]][j] in PostOrder(g)[..k]
  {
    var order := PostOrder(g);
    var u := order[k];
    assert u in order;
    assert u in g.ids;
    PostOrderDaughtersFirst(g, rank);
    forall j | 0 <= j < |g.dau[u]| ensures g.dau[u][j] in order[..k] {
      assert order[k] in g.dau && 0 <= j < |g.dau[order[k]]|;
    }
  }

  /** In a graph without cycles, when the traversal finishes its k-th
      vertex every daughter of that vertex that carries a record already
      has it cached, so the reads through `operator[]` never meet an
      absent key. */
  lemma DaughterRecordsReady(g: Graph, block: map<int, int>, rank: map<int, int>, k: nat)
    requires Indexed(g, block) && Ranked(g, rank)
    requires k < |PostOrder(g)|
    requires forall j :: 0 <= j < k ==> PostOrder(g)[j] in g.code
    requires AnalyzeOrder(g, block, NoCaches, PostOrder(g)[..k]).Ok?
    ensures PostOrder(g)[k] in g.dau
    ensures var u := PostOrder(g)[k];
            var c := AnalyzeOrder(g, block, NoCaches, PostOrder(g)[..k]).value;
            forall j :: 0 <= j < |g.dau[u]| ==>
              && (CodeIs(g, IsBCode)(g.dau[u][j]) ==> g.dau[u][j] in c.b)
              && (CodeIs(g, IsDOrDstarCode)(g.dau[u][j]) ==> g.dau[u][j] in c.d)
              && (CodeIs(g, IsLeptonCode)(g.dau[u][j]) ==> g.dau[u][j] in c.lepton)
  {
    DaughtersFinishedBefore(g, rank, k);
    var pre := PostOrder(g)[..k];
    AnalyzeOrderKeys(g, block, NoCaches, pre);
  }

  // ---------------------------------------------------------------------
  // The values the analysis caches
  // ---------------------------------------------------------------------

  /** Caches whose B records are the vertices' own B records and whose B
      records' leptons are already cached. */
  ghost predicate BSettled(g: Graph, c: Caches)
    requires Valid(g)
  {
    && (forall v :: v in c.b ==> v in g.code && BRecOf(g, v).Ok? && c.b[v] == BRecOf(g, v).value)
    && (forall v :: v in c.b && c.b[v].lepton.Some? ==> c.b[v].lepton.value in c.lepton)
  }

  /** Caches whose Y records are the Y scans of their daughters over these
      same caches. */
  ghost predicate YSettled(g: Graph, c: Caches)
    requires Valid(g)
  {
    forall u :: u in c.y ==> u in g.code && YScan(g, c, g.dau[u], FreshY) == Ok(c.y[u])
  }

  /** A successful Y scan reads only B records and their leptons, so caches
      that keep those records give the same scan. */
  lemma {:induction false} YScanExtend(g: Graph, c: Caches, c': Caches, kids: seq<int>, r: YRec)
    requires forall k :: 0 <= k < |kids| ==> kids[k] in g.code
    requires YScan(g, c, kids, r).Ok?
    requires forall v :: v in c.b ==> v in c'.b && c'.b[v] == c.b[v]
    requires forall v :: v in c.lepton ==> v in c'.lepton && c'.lepton[v] == c.lepton[v]
    requires forall v :: v in c.b && c.b[v].lepton.Some? ==> c.b[v].lepton.value in c.lepton
    ensures YScan(g, c', kids, r) == YScan(g, c, kids, r)
  {
    if kids != [] {
      var v := kids[0];
      assert v in c.b;
      assert IsTagB(c')(v) == IsTagB(c)(v);
      var r' := if IsTagB(c)(v) then r.(tagB := Some(v)) else r.(sigB := Some(v));
      YScanExtend(g, c, c', kids[1..], r');
    }
  }

  /** The lepton a B record refers to is a lepton daughter of the B. */
  lemma BLeptonIsDaughter(g: Graph, v: int)
    requires Valid(g) && v in g.code && BRecOf(g, v).Ok?
    ensures var l := BRecOf(g, v).value.lepton;
            l.Some? ==> l.value in g.dau[v] && IsLeptonCode(g.code[l.value])
  {
    BScanValue(g, g.dau[v], BRec(if Abs(g.code[v]) == B0Lund then BFlavor.B0 else BFlavor.Bc, None, None));
  }

  /** Finishing a vertex whose lepton daughters are already cached keeps
      the B records settled. */
  lemma BSettledStep(g: Graph, block: map<int, int>, c: Caches, u: int)
    requires Indexed(g, block) && u in g.code && BSettled(g, c)
    requires Finish(g, block, c, u).Ok?
    requires forall w :: w in g.dau[u] && IsLeptonCode(g.code[w]) ==> w in c.lepton
    ensures BSettled(g, Finish(g, block, c, u).value)
  {
    var c' := Finish(g, block, c, u).value;
    FinishKeys(g, block, c, u);
    if IsBCode(g.code[u]) && u !in c.b {
      assert c'.b[u] == BRecOf(g, u).value;
      BLeptonIsDaughter(g, u);
    }
  }

  /** Finishing a vertex keeps settled Y records settled and settles the
      vertex's own. */
  lemma YSettledStep(g: Graph, block: map<int, int>, c: Caches, u: int)
    requires Indexed(g, block) && u in g.code && BSettled(g, c) && YSettled(g, c)
    requires Finish(g, block, c, u).Ok?
    ensures YSettled(g, Finish(g, block, c, u).value)
  {
    var c' := Finish(g, block, c, u).value;
    FinishKeys(g, block, c, u);
    forall w | w in c'.y
      ensures w in g.code && YScan(g, c', g.dau[w], FreshY) == Ok(c'.y[w])
    {
      if w in c.y {
        YScanExtend(g, c, c', g.dau[w], FreshY);
      } else {
        assert c'.y[u] == YScan(g, c, g.dau[u], FreshY).value;
        YScanExtend(g, c, c', g.dau[u], FreshY);
      }
    }
  }

  /** Along a daughters-first order, every prefix of the analysis leaves
      settled caches. */
  lemma {:induction false} PrefixSettled(g: Graph, block: map<int, int>, order: seq<int>, n: nat)
    requires Indexed(g, block) && forall k :: 0 <= k < |order| ==> order[k] in g.code
    requires DaughtersFirst(g, order) && n <= |order|
    requires AnalyzeOrder(g, block, NoCaches, order[..n]).Ok?
    ensures BSettled(g, AnalyzeOrder(g, block, NoCaches, order[..n]).value)
    ensures YSettled(g, AnalyzeOrder(g, block, NoCaches, order[..n]).value)
  {
    if n > 0 {
      var pre, u := order[..n - 1], order[n - 1];
      assert order[..n] == pre + [u];
      AnalyzeOrderAppend(g, block, NoCaches, pre, [u]);
      PrefixSettled(g, block, order, n - 1);
      var c := AnalyzeOrder(g, block, NoCaches, pre).value;
      assert AnalyzeOrder(g, block, c, [u]) == Finish(g, block, c, u);
      AnalyzeOrderKeys(g, block, NoCaches, pre);
      forall w | w in g.dau[u] && IsLeptonCode(g.code[w]) ensures w in c.lepton {
        var j :| 0 <= j < |g.dau[u]| && g.dau[u][j] == w;
        assert order[n - 1] in g.dau && g.dau[order[n - 1]][j] in order[..n - 1];
      }
      BSettledStep(g, block, c, u);
      YSettledStep(g, block, c, u);
    }
  }

  /** In a graph without cycles the Y record a successful analysis caches
      for `u` is the Y scan of its daughters over the final caches: `tagB`
      is the last B daughter whose lepton has a lepton block index, `sigB`
      the last other B daughter. */
  lemma AnalysisYRecord(g: Graph, block: map<int, int>, rank: map<int, int>, u: int)
    requires Indexed(g, block) && Ranked(g, rank) && Analysis(g, block).Ok?
    requires u in Analysis(g, block).value.y
    ensures u in g.code && u in g.dau
    ensures var c := Analysis(g, block).value;
            && YScan(g, c, g.dau[u], FreshY) == Ok(c.y[u])
            && c.y[u].tagB == LastWhere(IsTagB(c), g.dau[u])
            && c.y[u].sigB == LastWhere(IsSigB(c), g.dau[u])
  {
    var c := Analysis(g, block).value;
    AnalysisSettled(g, block, rank);
    YScanValue(g, c, g.dau[u], FreshY);
  }

  /** In a graph without cycles a successful analysis leaves settled
      caches: each Y record is the Y scan of its daughters over the final
      caches. */
  lemma AnalysisSettled(g: Graph, block: map<int, int>, rank: map<int, int>)
    requires Indexed(g, block) && Ranked(g, rank) && Analysis(g, block).Ok?
    ensures YSettled(g, Analysis(g, block).value)
  {
    var order := PostOrder(g);
    PostOrderInGraph(g);
    PostOrderDaughtersFirst(g, rank);
    assert order[..|order|] == order;
    PrefixSettled(g, block, order, |order|);
  }
}
