/** The decay catalogues: a particle's daughter codes are reduced to a word
    over a small alphabet, the word is made canonical (sorted, then
    terminated by `Null`) and looked up exactly in a table of registered
    words. The prefix tree of the original is modelled as a map from word
    to label whose default is the `Null` label. */
module Catalogue {
  import opened Wrappers
  import opened Sorting
  import opened Defs

  // ---------------------------------------------------------------------
  // The catalogue table
  // ---------------------------------------------------------------------

  /** The table built by inserting `rows` in order; a later row with the
      same word would replace an earlier one (no catalogue has such a pair,
      see DRowsDistinct and its siblings). */
  function Register<S(==), L>(rows: seq<(seq<S>, L)>): (m: map<seq<S>, L>)
  {
    if rows == [] then map[]
    else
      var init := rows[..|rows| - 1];
      var m0 := Register(init);
      assert forall i :: 0 <= i < |init| ==> init[i] == rows[i];
      m0[rows[|rows| - 1].0 := rows[|rows| - 1].1]
  }

  /** Exact-word lookup with the not-found label as default. */
  function Find<S(==), L>(m: map<seq<S>, L>, word: seq<S>, missing: L): L {
    if word in m then m[word] else missing
  }

  /** The label of the last of `rows` registered under `word`, or
      `missing`: the same answer as a lookup in the table built from them. */
  function LastRowFor<S(==), L>(rows: seq<(seq<S>, L)>, word: seq<S>, missing: L): L {
    if rows == [] then missing
    else if rows[|rows| - 1].0 == word then rows[|rows| - 1].1
    else LastRowFor(rows[..|rows| - 1], word, missing)
  }

  lemma {:induction false} LastRowForIsFind<S, L>(rows: seq<(seq<S>, L)>, word: seq<S>, missing: L)
    ensures LastRowFor(rows, word, missing) == Find(Register(rows), word, missing)
  {
    if rows != [] {
      LastRowForIsFind(rows[..|rows| - 1], word, missing);
    }
  }

  ghost predicate DistinctKeys<S, L>(rows: seq<(seq<S>, L)>) {
    forall i, j :: 0 <= i < j < |rows| ==> rows[i].0 != rows[j].0
  }

  /** A row that no later row overrides is found under its word. */
  lemma {:induction false} RegisterFinds<S, L>(rows: seq<(seq<S>, L)>, i: nat)
    requires i < |rows|
    requires forall j :: i < j < |rows| ==> rows[j].0 != rows[i].0
    ensures rows[i].0 in Register(rows) && Register(rows)[rows[i].0] == rows[i].1
  {
    var n := |rows| - 1;
    if i < n {
      var init := rows[..n];
      RegisterFinds(init, i);
      assert init[i] == rows[i];
    }
  }

  /** Whatever the table returns for a word is the label of a row with that word. */
  lemma {:induction false} RegisterSound<S, L>(rows: seq<(seq<S>, L)>, w: seq<S>)
    requires w in Register(rows)
    ensures exists i :: 0 <= i < |rows| && rows[i] == (w, Register(rows)[w])
  {
    var n := |rows| - 1;
    if rows[n].0 != w {
      var init := rows[..n];
      RegisterSound(init, w);
      var i :| 0 <= i < |init| && init[i] == (w, Register(init)[w]);
      assert rows[i] == init[i];
    } else {
      assert rows[n] == (w, Register(rows)[w]);
    }
  }

  /** Exactly the words of the rows are in the table. */
  lemma {:induction false} RegisterKeys<S, L>(rows: seq<(seq<S>, L)>, w: seq<S>)
    ensures w in Register(rows) <==> exists i :: 0 <= i < |rows| && rows[i].0 == w
  {
    if rows != [] {
      var n := |rows| - 1;
      var init := rows[..n];
      RegisterKeys(init, w);
      if exists i :: 0 <= i < |rows| && rows[i].0 == w {
        var i :| 0 <= i < |rows| && rows[i].0 == w;
        if i < n {
          assert init[i] == rows[i];
        }
      }
      if exists i :: 0 <= i < |init| && init[i].0 == w {
        var i :| 0 <= i < |init| && init[i].0 == w;
        assert rows[i] == init[i];
      }
    }
  }

  /** When no row carries the not-found label, a lookup yields it exactly for
      unregistered words. */
  lemma FindMissingIff<S, L>(rows: seq<(seq<S>, L)>, w: seq<S>, missing: L)
    requires forall i :: 0 <= i < |rows| ==> rows[i].1 != missing
    ensures Find(Register(rows), w, missing) == missing <==>
              forall i :: 0 <= i < |rows| ==> rows[i].0 != w
  {
    RegisterKeys(rows, w);
    if w in Register(rows) {
      RegisterSound(rows, w);
    }
  }

  /** The part of a registered word before its terminator. */
  function Body<S>(w: seq<S>): seq<S>
    requires |w| > 0
  {
    w[..|w| - 1]
  }

  // ---------------------------------------------------------------------
  // Reconstructed D and D* catalogues
  // ---------------------------------------------------------------------

  /** The codes the reco alphabet knows; any other code is a violated
      assertion. */
  predicate IsRecoCode(lund: int) {
    Abs(lund) in {DstarcLund, Dstar0Lund, DcLund, D0Lund, KLund, KSLund, piLund, pi0Lund, gammaLund}
  }

  /** `RecoDTypeCatalogue::LundToAlphabet`; an unknown code gives `Null`, the
      value the source returns after its failed assertion. */
  function LundToRecoSym(lund: int): (a: RecoSym)
    ensures a != RecoSym.Null <==> IsRecoCode(lund)
  {
    match Abs(lund)
    case 413 => Dstarc
    case 423 => Dstar0
    case 411 => Dc
    case 421 => D0
    case 321 => K
    case 310 => Ks
    case 211 => pi
    case 111 => pi0
    case 22 => gamma
    case _ => RecoSym.Null
  }

  /** The canonical word of a code list: symbols sorted, then `Null`. */
  function RecoWord(lunds: seq<int>): (w: seq<RecoSym>)
    ensures |w| == |lunds| + 1 && w[|lunds|] == RecoSym.Null
  {
    SortBy(MapSeq(LundToRecoSym, lunds), RecoRank) + [RecoSym.Null]
  }

  predicate AllRecoCodes(lunds: seq<int>) {
    forall i :: 0 <= i < |lunds| ==> IsRecoCode(lunds[i])
  }

  /** Rows of the D catalogue, in registration order. Row 2 (`Dc_KsK`) is
      written with Ks before K, which is not the canonical order. */
  const D_ROWS: seq<(seq<RecoSym>, DType)> := [
    ([Dc, K, pi, pi, RecoSym.Null], Dc_Kpipi),
    ([Dc, K, pi, pi, pi0, RecoSym.Null], Dc_Kpipipi0),
    ([Dc, Ks, K, RecoSym.Null], Dc_KsK),
    ([Dc, Ks, pi, RecoSym.Null], Dc_Kspi),
    ([Dc, Ks, pi, pi0, RecoSym.Null], Dc_Kspipi0),
    ([Dc, Ks, pi, pi, pi, RecoSym.Null], Dc_Kspipipi),
    ([Dc, K, K, pi, RecoSym.Null], Dc_KKpi),
    ([D0, K, pi, RecoSym.Null], D0_Kpi),
    ([D0, K, pi, pi0, RecoSym.Null], D0_Kpipi0),
    ([D0, K, pi, pi, pi, RecoSym.Null], D0_Kpipipi),
    ([D0, K, pi, pi, pi, pi0, RecoSym.Null], D0_Kpipipipi0),
    ([D0, Ks, pi, pi, RecoSym.Null], D0_Kspipi),
    ([D0, Ks, pi, pi, pi0, RecoSym.Null], D0_Kspipipi0),
    ([D0, Ks, pi0, RecoSym.Null], D0_Kspi0),
    ([D0, K, K, RecoSym.Null], D0_KK)
  ]

  /** Rows of the D* catalogue, in registration order. */
  const DSTAR_ROWS: seq<(seq<RecoSym>, DstarType)> := [
    ([Dstar0, D0, pi0, RecoSym.Null], Dstar0_D0pi0),
    ([Dstar0, D0, gamma, RecoSym.Null], Dstar0_D0gamma),
    ([Dstarc, D0, pi, RecoSym.Null], Dstarc_D0pi),
    ([Dstarc, Dc, pi0, RecoSym.Null], Dstarc_Dcpi0),
    ([Dstarc, Dc, gamma, RecoSym.Null], Dstarc_Dcgamma)
  ]

  const D_CATALOGUE: map<seq<RecoSym>, DType> := Register(D_ROWS)
  const DSTAR_CATALOGUE: map<seq<RecoSym>, DstarType> := Register(DSTAR_ROWS)

  /** `search_d_catalogue`: the D mode of a D code and its daughters' codes,
      `Null` for an unregistered word, `Abort` for a code outside the
      alphabet. */
  function SearchD(lunds: seq<int>): Result<DType> {
    if AllRecoCodes(lunds) then Ok(Find(D_CATALOGUE, RecoWord(lunds), DType.Null)) else Abort
  }

  /** `search_dstar_catalogue`, the same over the D* table. */
  function SearchDstar(lunds: seq<int>): Result<DstarType> {
    if AllRecoCodes(lunds) then Ok(Find(DSTAR_CATALOGUE, RecoWord(lunds), DstarType.Null)) else Abort
  }

  /** The word-building loop shared by both reco searches. */
  method BuildRecoWord(lundList: seq<int>) returns (word: Result<seq<RecoSym>>)
    ensures word.Ok? <==> AllRecoCodes(lundList)
    ensures word.Ok? ==> word.value == RecoWord(lundList)
  {
    var w: seq<RecoSym> := [];
    for i := 0 to |lundList|
      invariant w == MapSeq(LundToRecoSym, lundList[..i])
      invariant AllRecoCodes(lundList[..i])
    {
      if !IsRecoCode(lundList[i]) {
        return Abort;
      }
      assert lundList[..i + 1] == lundList[..i] + [lundList[i]];
      w := w + [LundToRecoSym(lundList[i])];
    }
    assert lundList[..|lundList|] == lundList;
    w := SortBy(w, RecoRank);
    w := w + [RecoSym.Null];
    word := Ok(w);
  }

  method SearchDCatalogue(lundList: seq<int>) returns (r: Result<DType>)
    ensures r == SearchD(lundList)
  {
    var word := BuildRecoWord(lundList);
    if word.Abort? {
      return Abort;
    }
    r := Ok(Find(D_CATALOGUE, word.value, DType.Null));
  }

  method SearchDstarCatalogue(lundList: seq<int>) returns (r: Result<DstarType>)
    ensures r == SearchDstar(lundList)
  {
    var word := BuildRecoWord(lundList);
    if word.Abort? {
      return Abort;
    }
    r := Ok(Find(DSTAR_CATALOGUE, word.value, DstarType.Null));
  }

  /** The sign of a code never changes its symbol. */
  lemma RecoSymIgnoresSign(lund: int)
    ensures LundToRecoSym(lund) == LundToRecoSym(-lund)
    ensures IsRecoCode(lund) == IsRecoCode(-lund)
  {
  }

  lemma RecoRankInjective()
    ensures Injective(RecoRank)
  {
    forall a: RecoSym, b: RecoSym ensures RecoRank(a) == RecoRank(b) ==> a == b {
      RecoRankIsOrder(a, b);
    }
  }

  /** The reco word depends only on the multiset of codes. */
  lemma RecoWordPermutation(l1: seq<int>, l2: seq<int>)
    requires multiset(l1) == multiset(l2)
    ensures RecoWord(l1) == RecoWord(l2)
    ensures AllRecoCodes(l1) == AllRecoCodes(l2)
  {
    MapSeqPermutation(LundToRecoSym, l1, l2);
    RecoRankInjective();
    SortByPermutation(MapSeq(LundToRecoSym, l1), MapSeq(LundToRecoSym, l2), RecoRank);
    forall i | 0 <= i < |l1| ensures l1[i] in multiset(l2) {
      assert l1[i] in multiset(l1);
    }
    forall i | 0 <= i < |l2| ensures l2[i] in multiset(l1) {
      assert l2[i] in multiset(l2);
    }
  }

  /** Both reco lookups return the same label for every permutation of the
      input code list. */
  lemma SearchRecoPermutation(l1: seq<int>, l2: seq<int>)
    requires multiset(l1) == multiset(l2)
    ensures SearchD(l1) == SearchD(l2)
    ensures SearchDstar(l1) == SearchDstar(l2)
  {
    RecoWordPermutation(l1, l2);
  }

  /** No word is registered twice in the D table, and no row is labelled
      `Null`. */
  lemma DRowsDistinct()
    ensures DistinctKeys(D_ROWS)
    ensures forall i :: 0 <= i < |D_ROWS| ==> D_ROWS[i].1 != DType.Null
  {
  }

  lemma DstarRowsDistinct()
    ensures DistinctKeys(DSTAR_ROWS)
    ensures forall i :: 0 <= i < |DSTAR_ROWS| ==> DSTAR_ROWS[i].1 != DstarType.Null
  {
  }

  /** A well-formed code list never aborts, and it yields `Null` exactly when
      its canonical word is not registered. */
  lemma SearchDNullIffUnregistered(lunds: seq<int>)
    ensures SearchD(lunds).Ok? <==> AllRecoCodes(lunds)
    ensures SearchD(lunds) == Ok(DType.Null) <==>
              AllRecoCodes(lunds) && forall i :: 0 <= i < |D_ROWS| ==> D_ROWS[i].0 != RecoWord(lunds)
  {
    DRowsDistinct();
    FindMissingIff(D_ROWS, RecoWord(lunds), DType.Null);
  }

  lemma SearchDstarNullIffUnregistered(lunds: seq<int>)
    ensures SearchDstar(lunds).Ok? <==> AllRecoCodes(lunds)
    ensures SearchDstar(lunds) == Ok(DstarType.Null) <==>
              AllRecoCodes(lunds) && forall i :: 0 <= i < |DSTAR_ROWS| ==> DSTAR_ROWS[i].0 != RecoWord(lunds)
  {
    DstarRowsDistinct();
    FindMissingIff(DSTAR_ROWS, RecoWord(lunds), DstarType.Null);
  }

  /** A code that spells a symbol (the inverse of LundToRecoSym). */
  function RecoSymLund(a: RecoSym): (lund: int)
    ensures a != RecoSym.Null ==> LundToRecoSym(lund) == a
  {
    match a
    case Dstarc => DstarcLund
    case Dstar0 => Dstar0Lund
    case Dc => DcLund
    case D0 => D0Lund
    case K => KLund
    case Ks => KSLund
    case pi => piLund
    case pi0 => pi0Lund
    case gamma => gammaLund
    case Null => 0
  }

  /** A word body in canonical order is the canonical word of the codes
      that spell it. */
  lemma SortedBodyIsCanonical(body: seq<RecoSym>)
    requires forall k :: 0 <= k < |body| ==> body[k] != RecoSym.Null
    requires SortedBy(body, RecoRank)
    ensures AllRecoCodes(MapSeq(RecoSymLund, body))
    ensures RecoWord(MapSeq(RecoSymLund, body)) == body + [RecoSym.Null]
  {
    var codes := MapSeq(RecoSymLund, body);
    assert MapSeq(LundToRecoSym, codes) == body;
    RecoRankInjective();
    SortByIdentity(body, RecoRank);
  }

  /** Every D row except `Dc_KsK` is written in canonical order; the
      `Dc_KsK` row is not. */
  lemma DRowsOrder()
    ensures forall i :: 0 <= i < |D_ROWS| && i != 2 ==> SortedBy(Body(D_ROWS[i].0), RecoRank)
    ensures !SortedBy(Body(D_ROWS[2].0), RecoRank)
    ensures D_ROWS[2].1 == Dc_KsK
    ensures forall i :: 0 <= i < |D_ROWS| && D_ROWS[i].1 == Dc_KsK ==> i == 2
  {
    assert RecoRank(Body(D_ROWS[2].0)[1]) > RecoRank(Body(D_ROWS[2].0)[2]);
  }

  /** Every D row other than `Dc_KsK` is the answer for some code list. */
  lemma DRowsReachable(i: nat)
    requires i < |D_ROWS| && i != 2
    ensures SearchD(MapSeq(RecoSymLund, Body(D_ROWS[i].0))) == Ok(D_ROWS[i].1)
  {
    var row := D_ROWS[i];
    DRowsDistinct();
    DRowsOrder();
    assert row.0 == Body(row.0) + [RecoSym.Null];
    SortedBodyIsCanonical(Body(row.0));
    RegisterFinds(D_ROWS, i);
  }

  /** Every D* row is the answer for some code list. */
  lemma DstarRowsReachable(i: nat)
    requires i < |DSTAR_ROWS|
    ensures SearchDstar(MapSeq(RecoSymLund, Body(DSTAR_ROWS[i].0))) == Ok(DSTAR_ROWS[i].1)
  {
    var row := DSTAR_ROWS[i];
    DstarRowsDistinct();
    assert row.0 == Body(row.0) + [RecoSym.Null];
    assert SortedBy(Body(row.0), RecoRank);
    SortedBodyIsCanonical(Body(row.0));
    RegisterFinds(DSTAR_ROWS, i);
  }

  /** The `Dc_KsK` row can never be returned: it is registered as
      {Dc, Ks, K}, but K precedes Ks in the alphabet, so every canonical word
      holding those symbols reads {Dc, K, Ks}. Kept as written. */
  lemma DcKsKUnreachable(lunds: seq<int>)
    ensures SearchD(lunds) != Ok(Dc_KsK)
  {
    var w := RecoWord(lunds);
    assert SortedBy(Body(w), RecoRank);
    DRowsOrder();
    assert w != D_ROWS[2].0;
    if w in D_CATALOGUE {
      RegisterSound(D_ROWS, w);
      var i :| 0 <= i < |D_ROWS| && D_ROWS[i] == (w, D_CATALOGUE[w]);
      assert i != 2;
    }
  }

  lemma D0KpiSpelled()
    ensures SearchD([421, -321, 211]) == Ok(D0_Kpi)
  {
    var spelled := [421, 321, 211];
    assert SearchD(spelled) == Ok(D0_Kpi) by {
      assert Body(D_ROWS[7].0) == [D0, K, pi];
      assert MapSeq(RecoSymLund, [D0, K, pi]) == spelled;
      DRowsReachable(7);
    }
    assert MapSeq(LundToRecoSym, [421, -321, 211]) == MapSeq(LundToRecoSym, spelled);
  }

  /** D0 -> K- pi+ is found whatever the order. */
  lemma D0KpiRow(lunds: seq<int>)
    requires multiset(lunds) == multiset{421, -321, 211}
    ensures SearchD(lunds) == Ok(D0_Kpi)
  {
    D0KpiSpelled();
    assert multiset(lunds) == multiset([421, -321, 211]);
    SearchRecoPermutation(lunds, [421, -321, 211]);
  }

  lemma Dstar0D0pi0Spelled()
    ensures SearchDstar([423, 421, 111]) == Ok(Dstar0_D0pi0)
  {
    assert Body(DSTAR_ROWS[0].0) == [Dstar0, D0, pi0];
    assert MapSeq(RecoSymLund, [Dstar0, D0, pi0]) == [423, 421, 111];
    DstarRowsReachable(0);
  }

  /** D*0 -> D0 pi0 is found whatever the order. */
  lemma Dstar0D0pi0Row(lunds: seq<int>)
    requires multiset(lunds) == multiset{423, 421, 111}
    ensures SearchDstar(lunds) == Ok(Dstar0_D0pi0)
  {
    Dstar0D0pi0Spelled();
    assert multiset(lunds) == multiset([423, 421, 111]);
    SearchRecoPermutation(lunds, [423, 421, 111]);
  }

  // ---------------------------------------------------------------------
  // Monte-Carlo B catalogue
  // ---------------------------------------------------------------------

  /** `McBTypeCatalogue::LundToAlphabet`: total; photons are ignored (I) and
      every code it does not know is the wildcard X. */
  function LundToMcSym(lund: int): (a: McSym)
    ensures a != McSym.Null
  {
    match Abs(lund)
    case 12 => nu_ell
    case 14 => nu_ell
    case 16 => nu_tau
    case 11 => ell
    case 13 => ell
    case 15 => McSym.tau
    case 411 => McSym.D
    case 421 => McSym.D
    case 413 => Dstar
    case 423 => Dstar
    case 10411 => Dstarstar
    case 10421 => Dstarstar
    case 10413 => Dstarstar
    case 10423 => Dstarstar
    case 415 => Dstarstar
    case 425 => Dstarstar
    case 20413 => Dstarstar
    case 20423 => Dstarstar
    case 30411 => Dstarstar
    case 30421 => Dstarstar
    case 30413 => Dstarstar
    case 30423 => Dstarstar
    case 22 => I
    case _ => X
  }

  /** A symbol that enters the sorted part of an MC word (neither the
      wildcard nor an ignored photon). */
  predicate IsNamed(a: McSym) {
    a != X && a != I
  }

  /** The canonical MC word of a symbol sequence: named symbols sorted, one X
      if any symbol was the wildcard, then `Null`. */
  function McWordOf(syms: seq<McSym>): seq<McSym> {
    SortBy(Filter(IsNamed, syms), McRank) + (if X in syms then [X] else []) + [McSym.Null]
  }

  function McWord(lunds: seq<int>): seq<McSym> {
    McWordOf(MapSeq(LundToMcSym, lunds))
  }

  predicate HasX(lunds: seq<int>) {
    X in MapSeq(LundToMcSym, lunds)
  }

  /** Rows of the MC B catalogue, in registration order. */
  const MC_ROWS: seq<(seq<McSym>, BMcType)> := [
    ([nu_tau, McSym.tau, McSym.Null], SL),
    ([nu_tau, McSym.tau, McSym.D, McSym.Null], Dtau),
    ([nu_tau, McSym.tau, Dstar, McSym.Null], Dstartau),
    ([nu_tau, McSym.tau, Dstarstar, McSym.Null], Dstarstar_res),
    ([nu_tau, McSym.tau, X, McSym.Null], SL),
    ([nu_tau, McSym.tau, McSym.D, X, McSym.Null], Dstarstar_nonres),
    ([nu_tau, McSym.tau, Dstar, X, McSym.Null], Dstarstar_nonres),
    ([nu_tau, McSym.tau, Dstarstar, X, McSym.Null], Dstarstar_res),
    ([nu_ell, ell, McSym.Null], SL),
    ([nu_ell, ell, McSym.D, McSym.Null], Dl),
    ([nu_ell, ell, Dstar, McSym.Null], Dstarl),
    ([nu_ell, ell, Dstarstar, McSym.Null], Dstarstar_res),
    ([nu_ell, ell, X, McSym.Null], SL),
    ([nu_ell, ell, McSym.D, X, McSym.Null], Dstarstar_nonres),
    ([nu_ell, ell, Dstar, X, McSym.Null], Dstarstar_nonres),
    ([nu_ell, ell, Dstarstar, X, McSym.Null], Dstarstar_res),
    ([X, McSym.Null], Had),
    ([McSym.D, X, McSym.Null], Had),
    ([Dstar, X, McSym.Null], Had),
    ([Dstarstar, X, McSym.Null], Had),
    ([McSym.D, McSym.D, McSym.Null], Had),
    ([McSym.D, Dstar, McSym.Null], Had),
    ([McSym.D, Dstarstar, McSym.Null], Had),
    ([Dstar, Dstar, McSym.Null], Had),
    ([Dstar, Dstarstar, McSym.Null], Had),
    ([Dstarstar, Dstarstar, McSym.Null], Had),
    ([McSym.D, McSym.D, X, McSym.Null], Had),
    ([McSym.D, Dstar, X, McSym.Null], Had),
    ([McSym.D, Dstarstar, X, McSym.Null], Had),
    ([Dstar, Dstar, X, McSym.Null], Had),
    ([Dstar, Dstarstar, X, McSym.Null], Had),
    ([Dstarstar, Dstarstar, X, McSym.Null], Had)
  ]

  const MC_CATALOGUE: map<seq<McSym>, BMcType> := Register(MC_ROWS)

  /** `McBTypeCatalogue::search_catalogue`: never aborts. Written as the
      scan for the last row registered under the word, which answers as the
      table lookup does (LastRowForIsFind). */
  function SearchMc(lunds: seq<int>): BMcType {
    LastRowFor(MC_ROWS, McWord(lunds), BMcType.Null)
  }

  method SearchMcCatalogue(lundList: seq<int>) returns (r: BMcType)
    ensures r == SearchMc(lundList)
  {
    var word: seq<McSym> := [];
    var hasX := false;
    ghost var syms: seq<McSym> := [];
    for i := 0 to |lundList|
      invariant syms == MapSeq(LundToMcSym, lundList[..i])
      invariant word == Filter(IsNamed, syms)
      invariant hasX == (X in syms)
    {
      assert lundList[..i + 1][..i] == lundList[..i];
      var a := LundToMcSym(lundList[i]);
      syms := syms + [a];
      if a == I {
        continue;
      } else if a == X {
        hasX := true;
      } else {
        word := word + [a];
      }
    }
    assert lundList[..|lundList|] == lundList;
    word := SortBy(word, McRank);
    if hasX {
      word := word + [X];
    } else {
      assert word + [] == word;
    }
    word := word + [McSym.Null];
    r := Find(MC_CATALOGUE, word, BMcType.Null);
    LastRowForIsFind(MC_ROWS, word, BMcType.Null);
  }

  /** The sign of a code never changes its MC symbol. */
  lemma McSymIgnoresSign(lund: int)
    ensures LundToMcSym(lund) == LundToMcSym(-lund)
  {
  }

  lemma McRankInjective()
    ensures Injective(McRank)
  {
    forall a: McSym, b: McSym ensures McRank(a) == McRank(b) ==> a == b {
      McRankIsOrder(a, b);
    }
  }

  /** The MC word depends only on the multiset of symbols. */
  lemma McWordOfPermutation(s1: seq<McSym>, s2: seq<McSym>)
    requires multiset(s1) == multiset(s2)
    ensures McWordOf(s1) == McWordOf(s2)
  {
    FilterPermutation(IsNamed, s1, s2);
    McRankInjective();
    SortByPermutation(Filter(IsNamed, s1), Filter(IsNamed, s2), McRank);
    assert X in s1 <==> X in multiset(s1);
    assert X in s2 <==> X in multiset(s2);
  }

  /** The MC lookup returns the same label for every permutation of the
      daughter codes. */
  lemma SearchMcPermutation(l1: seq<int>, l2: seq<int>)
    requires multiset(l1) == multiset(l2)
    ensures McWord(l1) == McWord(l2)
    ensures SearchMc(l1) == SearchMc(l2)
  {
    MapSeqPermutation(LundToMcSym, l1, l2);
    McWordOfPermutation(MapSeq(LundToMcSym, l1), MapSeq(LundToMcSym, l2));
  }

  /** A symbol that is neither named nor a new wildcard leaves the word as it is. */
  lemma McWordOfAppendUnnamed(syms: seq<McSym>, a: McSym)
    requires a == I || (a == X && X in syms)
    ensures McWordOf(syms + [a]) == McWordOf(syms)
  {
    assert (syms + [a])[..|syms|] == syms;
    assert Filter(IsNamed, syms + [a]) == Filter(IsNamed, syms);
    assert X in syms + [a] <==> X in syms;
  }

  /** Adding a photon anywhere in the daughter list never changes the MC
      label (removing one neither). */
  lemma SearchMcIgnoresPhotons(pre: seq<int>, c: int, post: seq<int>)
    requires Abs(c) == gammaLund
    ensures SearchMc(pre + [c] + post) == SearchMc(pre + post)
  {
    var without := MapSeq(LundToMcSym, pre + post);
    MapSeqInsert(LundToMcSym, pre, c, post);
    assert LundToMcSym(c) == I;
    McWordOfPermutation(MapSeq(LundToMcSym, pre + [c] + post), without + [I]);
    McWordOfAppendUnnamed(without, I);
  }

  /** The sorted named part of an MC word holds no X. */
  lemma NamedPartHasNoX(syms: seq<McSym>)
    ensures multiset(SortBy(Filter(IsNamed, syms), McRank))[X] == 0
  {
    FilterCount(IsNamed, syms, X);
  }

  /** The symbol-level wildcard facts behind McWordWildcard. */
  lemma McWordOfWildcard(syms: seq<McSym>)
    ensures Count(McWordOf(syms), X) == (if X in syms then 1 else 0)
    ensures X in syms ==> McWordOf(syms)[|McWordOf(syms)| - 2] == X
  {
    var known := SortBy(Filter(IsNamed, syms), McRank);
    NamedPartHasNoX(syms);
    var tail := if X in syms then [X, McSym.Null] else [McSym.Null];
    var w := McWordOf(syms);
    assert w == known + tail;
    assert multiset(w) == multiset(known) + multiset(tail);
    assert multiset(tail)[X] == if X in syms then 1 else 0;
    if X in syms {
      assert w[|w| - 2] == tail[0];
    }
  }

  /** The MC word carries exactly one X when some code is unrecognised and
      none otherwise, placed right before the terminator; a further
      unrecognised code changes nothing. */
  lemma McWordWildcard(lunds: seq<int>, c: int)
    ensures Count(McWord(lunds), X) == (if HasX(lunds) then 1 else 0)
    ensures HasX(lunds) ==> McWord(lunds)[|McWord(lunds)| - 2] == X
    ensures HasX(lunds) && LundToMcSym(c) == X ==> McWord(lunds + [c]) == McWord(lunds)
  {
    var syms := MapSeq(LundToMcSym, lunds);
    McWordOfWildcard(syms);
    if HasX(lunds) && LundToMcSym(c) == X {
      MapSeqAppend(LundToMcSym, lunds, [c]);
      McWordOfAppendUnnamed(syms, X);
    }
  }

  /** No MC row is labelled `Null`. */
  lemma McRowsLabelled()
    ensures forall i :: 0 <= i < |MC_ROWS| ==> MC_ROWS[i].1 != BMcType.Null
  {
  }

  /** Rows 1 (`Dtau`) and 5 (the first `Dstarstar_nonres`) are not
      overridden by a later row. */
  lemma McRowsNotOverridden()
    ensures forall j :: 1 < j < |MC_ROWS| ==> MC_ROWS[j].0 != MC_ROWS[1].0
    ensures forall j :: 5 < j < |MC_ROWS| ==> MC_ROWS[j].0 != MC_ROWS[5].0
  {
  }

  /** The named symbols of a word body that is named symbols followed by
      wildcards. */
  lemma FilterNamedPrefix(w: seq<McSym>, xs: seq<McSym>)
    requires forall k :: 0 <= k < |w| ==> IsNamed(w[k])
    requires forall k :: 0 <= k < |xs| ==> !IsNamed(xs[k])
    ensures Filter(IsNamed, w + xs) == w
  {
    FilterAppend(IsNamed, w, xs);
    FilterAllOrNone(IsNamed, w);
    FilterAllOrNone(IsNamed, xs);
  }

  lemma McSortedIdentity(w: seq<McSym>)
    requires SortedBy(w, McRank)
    ensures SortBy(w, McRank) == w
  {
    McRankInjective();
    SortByIdentity(w, McRank);
  }

  /** The MC word of named symbols already in canonical order followed by
      wildcards: the symbols, one X if there was any, and the terminator. */
  lemma McWordOfCanonical(syms: seq<McSym>, w: seq<McSym>)
    requires Filter(IsNamed, syms) == w && SortedBy(w, McRank)
    ensures McWordOf(syms) == w + (if X in syms then [X] else []) + [McSym.Null]
  {
    McSortedIdentity(w);
  }

  /** The MC word of named symbols in canonical order, followed by any
      number of wildcards: the symbols, one X if there was a wildcard, and
      the terminator. */
  lemma McWordOfSorted(w: seq<McSym>, xs: seq<McSym>)
    requires forall k :: 0 <= k < |w| ==> IsNamed(w[k])
    requires forall k :: 0 <= k < |xs| ==> xs[k] == X
    requires SortedBy(w, McRank)
    ensures McWordOf(w + xs) == w + (if xs == [] then [] else [X]) + [McSym.Null]
  {
    assert Filter(IsNamed, w + xs) == w by {
      FilterNamedPrefix(w, xs);
    }
    McWordOfCanonical(w + xs, w);
    if xs == [] {
      assert X !in w + xs by {
        assert w + xs == w;
      }
    } else {
      assert (w + xs)[|w|] == X;
    }
  }

  lemma McDtauSpelled()
    ensures McWord([16, -15, 421]) == [nu_tau, McSym.tau, McSym.D, McSym.Null]
  {
    var w := [nu_tau, McSym.tau, McSym.D];
    assert MapSeq(LundToMcSym, [16, -15, 421]) == w + [];
    McWordOfSorted(w, []);
  }

  lemma McDtauWord(lunds: seq<int>)
    requires multiset(lunds) == multiset{16, -15, 421}
    ensures McWord(lunds) == [nu_tau, McSym.tau, McSym.D, McSym.Null]
  {
    McDtauSpelled();
    assert multiset(lunds) == multiset([16, -15, 421]);
    SearchMcPermutation(lunds, [16, -15, 421]);
  }

  /** B -> D tau nu, whatever the charges and the order. */
  lemma McDtauRow(lunds: seq<int>)
    requires multiset(lunds) == multiset{16, -15, 421}
    ensures SearchMc(lunds) == Dtau
  {
    var w := [nu_tau, McSym.tau, McSym.D, McSym.Null];
    LastRowForIsFind(MC_ROWS, w, BMcType.Null);
    assert w in MC_CATALOGUE && MC_CATALOGUE[w] == Dtau by {
      assert MC_ROWS[1] == (w, Dtau);
      McRowsNotOverridden();
      RegisterFinds(MC_ROWS, 1);
    }
    assert McWord(lunds) == w by {
      McDtauWord(lunds);
    }
  }

  lemma McDpipi0tauSymbols()
    ensures MapSeq(LundToMcSym, [16, 15, 421, 211, 111]) == [nu_tau, McSym.tau, McSym.D] + [X, X]
  {
  }

  lemma McDpipi0tauWord()
    ensures McWord([16, 15, 421, 211, 111]) == [nu_tau, McSym.tau, McSym.D, X, McSym.Null]
  {
    McDpipi0tauSymbols();
    McWordOfSorted([nu_tau, McSym.tau, McSym.D], [X, X]);
  }

  /** B -> D pi pi0 tau nu is a non-resonant D** decay: the pion codes are
      unrecognised and collapse into one X. */
  lemma McDpipi0tauRow()
    ensures SearchMc([16, 15, 421, 211, 111]) == Dstarstar_nonres
  {
    var w := [nu_tau, McSym.tau, McSym.D, X, McSym.Null];
    LastRowForIsFind(MC_ROWS, w, BMcType.Null);
    assert w in MC_CATALOGUE && MC_CATALOGUE[w] == Dstarstar_nonres by {
      assert MC_ROWS[5] == (w, Dstarstar_nonres);
      McRowsNotOverridden();
      RegisterFinds(MC_ROWS, 5);
    }
    assert McWord([16, 15, 421, 211, 111]) == w by {
      McDpipi0tauWord();
    }
  }
}
