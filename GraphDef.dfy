/** The records attached to graph vertices and the reco indexer, which gives
    every reconstructed candidate of an event a unique identifier by laying
    the seven candidate categories out in consecutive bands. */
module GraphDef {
  import opened Wrappers
  import opened Defs

  // ---------------------------------------------------------------------
  // Reco satellite records. A link to another record becomes the
  // identifier (reco index) of the vertex that owns it.
  // ---------------------------------------------------------------------

  /** A lepton or a tau stand-in (pi or rho). */
  datatype LeptonRec = LeptonRec(lBlockIdx: int, piBlockIdx: int, tauMode: TauType)

  /** A D or a D*; for a plain D `dstarMode` stays `NoDstar`. */
  datatype DRec = DRec(dMode: DType, dstarMode: DstarType)

  /** A B: its flavor, its D/D* daughter and its lepton daughter. The fields
      are `d` and `lepton`, the names the visitor code uses. */
  datatype BRec = BRec(flavor: BFlavor, d: Option<int>, lepton: Option<int>)

  /** An Upsilon(4S): its tag-side and signal-side B. */
  datatype YRec = YRec(tagB: Option<int>, sigB: Option<int>)

  const FreshLepton := LeptonRec(-1, -1, TauType.Null)
  const FreshD := DRec(DType.Null, NoDstar)
  const FreshB := BRec(BFlavor.Null, None, None)
  const FreshY := YRec(None, None)

  // ---------------------------------------------------------------------
  // MC satellite records
  // ---------------------------------------------------------------------

  datatype TauRec = TauRec(mcType: TauMcType)
  datatype McBRec = McBRec(flavor: BFlavor, mcType: BMcType, tau: Option<int>)
  datatype McYRec = McYRec(isBBbar: bool, b1: Option<int>, b2: Option<int>)

  const FreshTau := TauRec(TauMcType.Null)
  const FreshMcB := McBRec(BFlavor.Null, BMcType.Null, None)
  const FreshMcY := McYRec(true, None, None)

  /** The defaults: every label `Null`, every block index -1, no references,
      and an Upsilon presumed to decay to a B pair. A fresh D reports
      `NoDstar`, not `Null`. */
  lemma FreshRecords()
    ensures FreshLepton.lBlockIdx < 0 && FreshLepton.piBlockIdx < 0 && FreshLepton.tauMode.Value() == -1
    ensures FreshD.dMode.Value() == -1 && FreshD.dstarMode.Value() == 0
    ensures FreshB.flavor.Value() == -1 && FreshB.d.None? && FreshB.lepton.None?
    ensures FreshY.tagB.None? && FreshY.sigB.None?
    ensures FreshTau.mcType.Value() == -1
    ensures FreshMcB.flavor.Value() == -1 && FreshMcB.mcType.Value() == -1 && FreshMcB.tau.None?
    ensures FreshMcY.isBBbar && FreshMcY.b1.None? && FreshMcY.b2.None?
  {
  }

  // ---------------------------------------------------------------------
  // Reco indexer
  // ---------------------------------------------------------------------

  /** The band of a code: 0 Y, 1 B, 2 D/D*, 3 composite neutral or charged
      meson C (KS, rho, pi0), 4 hadron h (K, pi), 5 lepton l (e, mu),
      6 photon; -1 for any other code. */
  function Band(lund: int): (b: int)
    ensures -1 <= b < 7
  {
    match Abs(lund)
    case 70553 => 0
    case 511 => 1
    case 521 => 1
    case 421 => 2
    case 411 => 2
    case 423 => 2
    case 413 => 2
    case 310 => 3
    case 213 => 3
    case 111 => 3
    case 321 => 4
    case 211 => 4
    case 11 => 5
    case 13 => 5
    case 22 => 6
    case _ => -1
  }

  class RecoIndexer {
    var nY: int
    var nB: int
    var nD: int
    var nC: int
    var nh: int
    var nl: int
    var ngamma: int

    /** The seven counts in band order. */
    function Counts(): (c: seq<int>)
      reads this
      ensures |c| == 7
    {
      [nY, nB, nD, nC, nh, nl, ngamma]
    }

    ghost predicate CountsNonNegative()
      reads this
    {
      forall k :: 0 <= k < 7 ==> Counts()[k] >= 0
    }

    /** First identifier of band `k`: the sum of the counts of the bands
        before it. */
    function Offset(k: nat): int
      requires k <= 7
      reads this
    {
      if k == 0 then 0 else Offset(k - 1) + Counts()[k - 1]
    }

    /** The offsets written out: each band starts where the previous ends. */
    lemma OffsetValues()
      ensures Offset(1) == nY && Offset(2) == nY + nB && Offset(3) == nY + nB + nD
      ensures Offset(4) == nY + nB + nD + nC && Offset(5) == nY + nB + nD + nC + nh
      ensures Offset(6) == nY + nB + nD + nC + nh + nl
      ensures Offset(7) == nY + nB + nD + nC + nh + nl + ngamma
    {
    }

    constructor ()
      ensures Counts() == [0, 0, 0, 0, 0, 0, 0]
    {
      nY, nB, nD, nC, nh, nl, ngamma := 0, 0, 0, 0, 0, 0, 0;
    }

    constructor WithCounts(y: int, b: int, d: int, c: int, h: int, l: int, g: int)
      ensures Counts() == [y, b, d, c, h, l, g]
    {
      nY, nB, nD, nC, nh, nl, ngamma := y, b, d, c, h, l, g;
    }

    /** `get_reco_idx`: band offset plus block index, -1 for a code outside
        the seven bands. */
    function RecoIdx(lund: int, idx: int): (r: int)
      reads this
      ensures Band(lund) == -1 ==> r == -1
      ensures Band(lund) >= 0 ==> r == Offset(Band(lund)) + idx
    {
      OffsetValues();
      var a := Abs(lund);
      if a == UpsilonLund then idx
      else if a == B0Lund || a == BcLund then nY + idx
      else if a == D0Lund || a == DcLund || a == Dstar0Lund || a == DstarcLund then nY + nB + idx
      else if a == KSLund || a == rhoLund || a == pi0Lund then nY + nB + nD + idx
      else if a == KLund || a == piLund then nY + nB + nD + nC + idx
      else if a == eLund || a == muLund then nY + nB + nD + nC + nh + idx
      else if a == gammaLund then nY + nB + nD + nC + nh + nl + idx
      else -1
    }

    predicate IsH(r: int)
      reads this
    {
      var off := nY + nB + nD + nC;
      off <= r < off + nh
    }

    predicate IsL(r: int)
      reads this
    {
      var off := nY + nB + nD + nC + nh;
      off <= r < off + nl
    }

    predicate IsGamma(r: int)
      reads this
    {
      var off := nY + nB + nD + nC + nh + nl;
      off <= r < off + ngamma
    }

    function Total(): int
      reads this
    {
      nY + nB + nD + nC + nh + nl + ngamma
    }

    /** `set`: the seven values in the order Y, B, D, C, h, l, gamma. */
    method Set(l: seq<int>)
      requires |l| == 7
      modifies this
      ensures Counts() == l
    {
      nY := l[0];
      nB := l[1];
      nD := l[2];
      nC := l[3];
      nh := l[4];
      nl := l[5];
      ngamma := l[6];
    }

    method Clear()
      modifies this
      ensures Counts() == [0, 0, 0, 0, 0, 0, 0]
      ensures Total() == 0
    {
      nY, nB, nD, nC, nh, nl, ngamma := 0, 0, 0, 0, 0, 0, 0;
    }

    /** The seven bands tile [0, Total()). */
    lemma TotalIsLastOffset()
      ensures Offset(7) == Total()
      ensures Offset(0) == 0
    {
      OffsetValues();
    }

    lemma {:induction false} OffsetMonotone(a: nat, b: nat)
      requires CountsNonNegative()
      requires a <= b <= 7
      ensures Offset(a) <= Offset(b)
    {
      if a < b {
        OffsetMonotone(a, b - 1);
        assert Counts()[b - 1] >= 0;
        assert Offset(b) == Offset(b - 1) + Counts()[b - 1];
      }
    }

    /** An in-range block index lands inside its band, and so inside
        [0, Total()). */
    lemma RecoIdxInRange(lund: int, i: int)
      requires CountsNonNegative()
      requires Band(lund) >= 0 && 0 <= i < Counts()[Band(lund)]
      ensures Offset(Band(lund)) <= RecoIdx(lund, i) < Offset(Band(lund) + 1)
      ensures 0 <= RecoIdx(lund, i) < Total()
    {
      var b := Band(lund);
      OffsetMonotone(0, b);
      OffsetMonotone(b + 1, 7);
      TotalIsLastOffset();
      assert Offset(b + 1) == Offset(b) + Counts()[b];
    }

    /** Distinct in-range candidates never share an identifier. */
    lemma RecoIdxInjective(l1: int, i: int, l2: int, j: int)
      requires CountsNonNegative()
      requires Band(l1) >= 0 && 0 <= i < Counts()[Band(l1)]
      requires Band(l2) >= 0 && 0 <= j < Counts()[Band(l2)]
      requires RecoIdx(l1, i) == RecoIdx(l2, j)
      ensures Band(l1) == Band(l2) && i == j
    {
      var b1, b2 := Band(l1), Band(l2);
      RecoIdxInRange(l1, i);
      RecoIdxInRange(l2, j);
      if b1 < b2 {
        OffsetMonotone(b1 + 1, b2);
      } else if b2 < b1 {
        OffsetMonotone(b2 + 1, b1);
      } else {
        assert Offset(b1) + i == Offset(b2) + j;
      }
    }

    /** The charge sign of a code never changes its identifier. */
    lemma RecoIdxIgnoresSign(lund: int, i: int)
      ensures RecoIdx(lund, i) == RecoIdx(-lund, i)
    {
    }

    /** `is_h_candidate(r)` holds exactly for the identifiers of the first
        `nh` pions (equivalently kaons); likewise for leptons and photons. */
    lemma MembershipIsBandImage(r: int)
      ensures IsH(r) <==> exists i :: 0 <= i < nh && r == RecoIdx(piLund, i)
      ensures IsH(r) <==> exists i :: 0 <= i < nh && r == RecoIdx(KLund, i)
      ensures IsL(r) <==> exists i :: 0 <= i < nl && r == RecoIdx(eLund, i)
      ensures IsL(r) <==> exists i :: 0 <= i < nl && r == RecoIdx(muLund, i)
      ensures IsGamma(r) <==> exists i :: 0 <= i < ngamma && r == RecoIdx(gammaLund, i)
    {
      var h := nY + nB + nD + nC;
      if IsH(r) {
        assert r == RecoIdx(piLund, r - h) && r == RecoIdx(KLund, r - h);
      }
      if IsL(r) {
        assert r == RecoIdx(eLund, r - h - nh) && r == RecoIdx(muLund, r - h - nh);
      }
      if IsGamma(r) {
        assert r == RecoIdx(gammaLund, r - h - nh - nl);
      }
    }

    /** No identifier is in two of the h, l and gamma bands. */
    lemma MembershipExclusive(r: int)
      requires CountsNonNegative()
      ensures !(IsH(r) && IsL(r)) && !(IsH(r) && IsGamma(r)) && !(IsL(r) && IsGamma(r))
    {
      assert Counts()[5] >= 0;
    }
  }
}
