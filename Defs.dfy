/** Constants and enumerations of the B -> D tau nu analysis: particle
    (Lund) codes, the label enumerations with their integer values, and the
    two private catalogue alphabets with the order their enum values give. */
module Defs {

  // Lund codes of the particles the analysis recognises.
  const UpsilonLund := 70553
  const B0Lund := 511
  const BcLund := 521
  const D0Lund := 421
  const DcLund := 411
  const Dstar0Lund := 423
  const DstarcLund := 413
  const KSLund := 310
  const K0Lund := 311
  const rhoLund := 213
  const pi0Lund := 111
  const KLund := 321
  const piLund := 211
  const eLund := 11
  const nu_eLund := 12
  const muLund := 13
  const nu_muLund := 14
  const tauLund := 15
  const nu_tauLund := 16
  const gammaLund := 22
  const protonLund := 2212
  const neutronLund := 2112

  /** Every Lund code above, in declaration order. */
  const LundCodes: seq<int> := [
    UpsilonLund, B0Lund, BcLund, D0Lund, DcLund, Dstar0Lund, DstarcLund,
    KSLund, K0Lund, rhoLund, pi0Lund, KLund, piLund, eLund, nu_eLund, muLund,
    nu_muLund, tauLund, nu_tauLund, gammaLund, protonLund, neutronLund
  ]

  /** The sign of a code carries charge; classification uses its magnitude. */
  function Abs(x: int): (r: nat)
    ensures r == x || r == -x
  {
    if x < 0 then -x else x
  }

  /** The Lund codes are positive and pairwise distinct, so a dispatch on
      `abs(code)` never has two cases for one particle. */
  lemma LundCodesDistinctPositive()
    ensures forall i :: 0 <= i < |LundCodes| ==> LundCodes[i] > 0
    ensures forall i, j :: 0 <= i < j < |LundCodes| ==> LundCodes[i] != LundCodes[j]
  {
  }

  datatype BFlavor = NoB | B0 | Bc | Null {
    function Value(): int {
      match this
      case NoB => 0
      case B0 => 1
      case Bc => 2
      case Null => -1
    }
  }

  /** Reconstructed D decay modes. */
  datatype DType =
    | Dc_Kpipi | Dc_Kpipipi0 | Dc_KsK | Dc_Kspi | Dc_Kspipi0 | Dc_Kspipipi
    | Dc_KKpi | D0_Kpi | D0_Kpipi0 | D0_Kpipipi | D0_Kpipipipi0 | D0_Kspipi
    | D0_Kspipipi0 | D0_Kspi0 | D0_KK | Null
  {
    function Value(): int {
      match this
      case Dc_Kpipi => 1
      case Dc_Kpipipi0 => 2
      case Dc_KsK => 3
      case Dc_Kspi => 4
      case Dc_Kspipi0 => 5
      case Dc_Kspipipi => 6
      case Dc_KKpi => 7
      case D0_Kpi => 8
      case D0_Kpipi0 => 9
      case D0_Kpipipi => 10
      case D0_Kpipipipi0 => 11
      case D0_Kspipi => 12
      case D0_Kspipipi0 => 13
      case D0_Kspi0 => 14
      case D0_KK => 15
      case Null => -1
    }
  }

  /** The fifteen D modes carry the distinct values 1..15; `Null` (-1), the
      not-found label, is none of them. */
  lemma DTypeValues(a: DType, b: DType)
    ensures a != DType.Null ==> 1 <= a.Value() <= 15
    ensures a == DType.Null <==> a.Value() == -1
    ensures a.Value() == b.Value() ==> a == b
  {
  }

  /** Reconstructed D* decay modes; `NoDstar` marks a plain D. */
  datatype DstarType =
    | NoDstar | Dstar0_D0pi0 | Dstar0_D0gamma | Dstarc_D0pi | Dstarc_Dcpi0
    | Dstarc_Dcgamma | Null
  {
    function Value(): int {
      match this
      case NoDstar => 0
      case Dstar0_D0pi0 => 1
      case Dstar0_D0gamma => 2
      case Dstarc_D0pi => 3
      case Dstarc_Dcpi0 => 4
      case Dstarc_Dcgamma => 5
      case Null => -1
    }
  }

  /** `NoDstar` (0) and `Null` (-1) are different labels, and the values are
      distinct. */
  lemma DstarTypeValues(a: DstarType, b: DstarType)
    ensures DstarType.NoDstar.Value() != DstarType.Null.Value()
    ensures -1 <= a.Value() <= 5
    ensures a.Value() == b.Value() ==> a == b
  {
  }

  /** Reconstructed tau modes (what the tau would be for a real lepton). */
  datatype TauType = NoTau | tau_pi | tau_rho | tau_e | tau_mu | Null {
    function Value(): int {
      match this
      case NoTau => 0
      case tau_pi => 1
      case tau_rho => 2
      case tau_e => 3
      case tau_mu => 4
      case Null => -1
    }
  }

  /** Monte-Carlo B meson decay categories. */
  datatype BMcType =
    | NoB | Dtau | Dstartau | Dl | Dstarl | Dstarstar_res | Dstarstar_nonres
    | SL | Had | Null
  {
    function Value(): int {
      match this
      case NoB => 0
      case Dtau => 1
      case Dstartau => 2
      case Dl => 3
      case Dstarl => 4
      case Dstarstar_res => 5
      case Dstarstar_nonres => 6
      case SL => 7
      case Had => 8
      case Null => -1
    }
  }

  /** Monte-Carlo tau decay categories. */
  datatype TauMcType = NoTau | tau_e | tau_mu | tau_k | tau_h | Null {
    function Value(): int {
      match this
      case NoTau => 0
      case tau_e => 1
      case tau_mu => 2
      case tau_k => 3
      case tau_h => 4
      case Null => -1
    }
  }

  /** Candidate types: tag-side D or D*, signal-side D or D*, tau to pi or rho. */
  datatype CandType =
    | kDDpi | kDDstarpi | kDstarDpi | kDstarDstarpi
    | kDDrho | kDDstarrho | kDstarDrho | kDstarDstarrho | Null
  {
    function Value(): int {
      match this
      case kDDpi => 0
      case kDDstarpi => 1
      case kDstarDpi => 2
      case kDstarDstarpi => 3
      case kDDrho => 4
      case kDDstarrho => 5
      case kDstarDrho => 6
      case kDstarDstarrho => 7
      case Null => -1
    }

    /** What the name says: the signal tau is a rho. */
    predicate IsRho() {
      this in {kDDrho, kDDstarrho, kDstarDrho, kDstarDstarrho}
    }

    /** What the name says: the tag side holds a D*. */
    predicate TagHasDstar() {
      this in {kDstarDpi, kDstarDstarpi, kDstarDrho, kDstarDstarrho}
    }

    /** What the name says: the signal side holds a D*. */
    predicate SigHasDstar() {
      this in {kDDstarpi, kDstarDstarpi, kDDstarrho, kDstarDstarrho}
    }
  }

  /** The value of `static_cast<CandType>(v)`. */
  function CandTypeOf(v: int): (c: CandType)
    requires 0 <= v < 8
    ensures c.Value() == v
  {
    match v
    case 0 => kDDpi
    case 1 => kDDstarpi
    case 2 => kDstarDpi
    case 3 => kDstarDstarpi
    case 4 => kDDrho
    case 5 => kDDstarrho
    case 6 => kDstarDrho
    case 7 => kDstarDstarrho
  }

  /** The eight non-null candidate types are exactly the 3-bit numbers, bit 2
      meaning rho, bit 1 tag D* and bit 0 signal D*. */
  lemma CandTypeBits(c: CandType)
    requires c != CandType.Null
    ensures 0 <= c.Value() < 8
    ensures CandTypeOf(c.Value()) == c
    ensures c.IsRho() <==> c.Value() / 4 == 1
    ensures c.TagHasDstar() <==> (c.Value() / 2) % 2 == 1
    ensures c.SigHasDstar() <==> c.Value() % 2 == 1
  {
  }

  /** Sample types: signal B flavor and signal-side D or D*. */
  datatype SampleType = kBcD | kBcDstar | kB0D | kB0Dstar | Null {
    function Value(): int {
      match this
      case kBcD => 0
      case kBcDstar => 1
      case kB0D => 2
      case kB0Dstar => 3
      case Null => -1
    }

    predicate IsB0() {
      this in {kB0D, kB0Dstar}
    }

    predicate HasDstar() {
      this in {kBcDstar, kB0Dstar}
    }
  }

  /** The value of `static_cast<SampleType>(v)`. */
  function SampleTypeOf(v: int): (s: SampleType)
    requires 0 <= v < 4
    ensures s.Value() == v
  {
    match v
    case 0 => kBcD
    case 1 => kBcDstar
    case 2 => kB0D
    case 3 => kB0Dstar
  }

  /** The four non-null sample types are exactly the 2-bit numbers, bit 1
      meaning a neutral B and bit 0 a signal D*. */
  lemma SampleTypeBits(s: SampleType)
    requires s != SampleType.Null
    ensures 0 <= s.Value() < 4
    ensures SampleTypeOf(s.Value()) == s
    ensures s.IsB0() <==> s.Value() / 2 == 1
    ensures s.HasDstar() <==> s.Value() % 2 == 1
  {
  }

  /** The alphabet of the reconstructed D/D* catalogue. Its enum values
      0..8 give the sort order; `Null` (-1) terminates every word. */
  datatype RecoSym = Dstarc | Dstar0 | Dc | D0 | K | Ks | pi | pi0 | gamma | Null {
    function Rank(): int {
      match this
      case Dstarc => 0
      case Dstar0 => 1
      case Dc => 2
      case D0 => 3
      case K => 4
      case Ks => 5
      case pi => 6
      case pi0 => 7
      case gamma => 8
      case Null => -1
    }
  }

  function RecoRank(a: RecoSym): int { a.Rank() }

  /** The alphabet of the Monte-Carlo B catalogue: X is the wildcard for an
      unrecognised code, I an ignored one (a photon). */
  datatype McSym = nu_ell | nu_tau | ell | tau | D | Dstar | Dstarstar | X | I | Null {
    function Rank(): int {
      match this
      case nu_ell => 0
      case nu_tau => 1
      case ell => 2
      case tau => 3
      case D => 4
      case Dstar => 5
      case Dstarstar => 6
      case X => 7
      case I => 8
      case Null => -1
    }
  }

  function McRank(a: McSym): int { a.Rank() }

  /** The reco order Dstarc < Dstar0 < Dc < D0 < K < Ks < pi < pi0 < gamma is
      a strict total order with `Null` below all of them, so it is a
      canonical sort key. */
  lemma RecoRankIsOrder(a: RecoSym, b: RecoSym)
    ensures RecoRank(a) == RecoRank(b) ==> a == b
    ensures a != RecoSym.Null ==> RecoRank(RecoSym.Null) < RecoRank(a)
    ensures RecoRank(RecoSym.Dstarc) < RecoRank(RecoSym.Dstar0) < RecoRank(RecoSym.Dc)
              < RecoRank(RecoSym.D0) < RecoRank(RecoSym.K) < RecoRank(RecoSym.Ks)
              < RecoRank(RecoSym.pi) < RecoRank(RecoSym.pi0) < RecoRank(RecoSym.gamma)
  {
  }

  /** The MC order nu_ell < nu_tau < ell < tau < D < Dstar < Dstarstar < X < I
      is a strict total order with `Null` below all of them. */
  lemma McRankIsOrder(a: McSym, b: McSym)
    ensures McRank(a) == McRank(b) ==> a == b
    ensures a != McSym.Null ==> McRank(McSym.Null) < McRank(a)
    ensures McRank(McSym.nu_ell) < McRank(McSym.nu_tau) < McRank(McSym.ell)
              < McRank(McSym.tau) < McRank(McSym.D) < McRank(McSym.Dstar)
              < McRank(McSym.Dstarstar) < McRank(McSym.X) < McRank(McSym.I)
  {
  }
}
