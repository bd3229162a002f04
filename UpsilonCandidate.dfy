/** An Upsilon(4S) candidate as handed to the output tuple: its indices,
    the modes the reconstructed-graph analysis assigned, its kinematics and
    particle-identification maps, and the two derived classification codes. */
module Candidates {
  import opened Wrappers
  import opened Defs

  /** The floating-point kinematic attributes. They are only stored and
      copied, so they are carried as reals; the single-precision rounding
      of the source plays no part. */
  datatype Kinematics = Kinematics(
    eextra50: real, mmissPrime2: real, cosThetaT: real,
    tagLp3: real, tagCosBY: real, tagCosThetaDl: real, tagDmass: real,
    tagDeltaM: real, tagCosThetaDSoft: real, tagSoftP3MagCM: real,
    sigHp3: real, sigCosBY: real, sigCosThetaDtau: real, sigVtxB: real,
    sigDmass: real, sigDeltaM: real, sigCosThetaDSoft: real,
    sigSoftP3MagCM: real, sigHmass: real, sigVtxh: real)

  /** Every kinematic attribute at the non-physical default -999. */
  const UnsetKinematics := Kinematics(
    -999.0, -999.0, -999.0,
    -999.0, -999.0, -999.0, -999.0, -999.0, -999.0, -999.0,
    -999.0, -999.0, -999.0, -999.0, -999.0, -999.0, -999.0, -999.0, -999.0, -999.0)

  /** The value of every attribute of a candidate at one moment. */
  datatype CandRecord = CandRecord(
    eventId: string, blockIndex: int, recoIndex: int, truthMatch: int,
    bflavor: BFlavor, kin: Kinematics,
    tagDMode: DType, tagDstarMode: DstarType, lEPidMap: int, lMuPidMap: int,
    sigDMode: DType, sigDstarMode: DstarType, sigTauMode: TauType,
    hEPidMap: int, hMuPidMap: int)

  /** The attributes of a default-constructed candidate. */
  const DefaultRecord := CandRecord(
    "", -999, -1, -1, BFlavor.Null, UnsetKinematics,
    DType.Null, DstarType.Null, 0, 0,
    DType.Null, DstarType.Null, TauType.Null, 0, 0)

  class UpsilonCandidate {
    var eventId: string
    var blockIndex: int
    var recoIndex: int
    var truthMatch: int
    var bflavor: BFlavor
    var kin: Kinematics
    var tagDMode: DType
    var tagDstarMode: DstarType
    var lEPidMap: int
    var lMuPidMap: int
    var sigDMode: DType
    var sigDstarMode: DstarType
    var sigTauMode: TauType
    var hEPidMap: int
    var hMuPidMap: int

    /** The candidate's attributes as one value. */
    function Attributes(): CandRecord
      reads this
    {
      CandRecord(eventId, blockIndex, recoIndex, truthMatch, bflavor, kin,
                 tagDMode, tagDstarMode, lEPidMap, lMuPidMap,
                 sigDMode, sigDstarMode, sigTauMode, hEPidMap, hMuPidMap)
    }

    /** The default constructor: non-physical indices (-999 block index,
        -1 reco index and truth match), every mode null, every kinematic
        attribute -999 and every PID map 0. */
    constructor ()
      ensures Attributes() == DefaultRecord
    {
      eventId := "";
      blockIndex := -999;
      recoIndex := -1;
      truthMatch := -1;
      bflavor := BFlavor.Null;
      kin := UnsetKinematics;
      tagDMode := DType.Null;
      tagDstarMode := DstarType.Null;
      lEPidMap := 0;
      lMuPidMap := 0;
      sigDMode := DType.Null;
      sigDstarMode := DstarType.Null;
      sigTauMode := TauType.Null;
      hEPidMap := 0;
      hMuPidMap := 0;
    }

    /** The constructor that takes every attribute. */
    constructor WithAttributes(r: CandRecord)
      ensures Attributes() == r
    {
      eventId := r.eventId;
      blockIndex := r.blockIndex;
      recoIndex := r.recoIndex;
      truthMatch := r.truthMatch;
      bflavor := r.bflavor;
      kin := r.kin;
      tagDMode := r.tagDMode;
      tagDstarMode := r.tagDstarMode;
      lEPidMap := r.lEPidMap;
      lMuPidMap := r.lMuPidMap;
      sigDMode := r.sigDMode;
      sigDstarMode := r.sigDstarMode;
      sigTauMode := r.sigTauMode;
      hEPidMap := r.hEPidMap;
      hMuPidMap := r.hMuPidMap;
    }

    /** The copy constructor. */
    constructor Copy(cand: UpsilonCandidate)
      ensures Attributes() == cand.Attributes()
    {
      eventId := cand.eventId;
      blockIndex := cand.blockIndex;
      recoIndex := cand.recoIndex;
      truthMatch := cand.truthMatch;
      bflavor := cand.bflavor;
      kin := cand.kin;
      tagDMode := cand.tagDMode;
      tagDstarMode := cand.tagDstarMode;
      lEPidMap := cand.lEPidMap;
      lMuPidMap := cand.lMuPidMap;
      sigDMode := cand.sigDMode;
      sigDstarMode := cand.sigDstarMode;
      sigTauMode := cand.sigTauMode;
      hEPidMap := cand.hEPidMap;
      hMuPidMap := cand.hMuPidMap;
    }

    /** `copy_candidate`: every attribute of `cand` is copied. */
    method CopyCandidate(cand: UpsilonCandidate)
      modifies this
      ensures Attributes() == old(cand.Attributes())
    {
      var r := cand.Attributes();
      eventId := r.eventId;
      blockIndex := r.blockIndex;
      recoIndex := r.recoIndex;
      truthMatch := r.truthMatch;
      bflavor := r.bflavor;
      kin := r.kin;
      tagDMode := r.tagDMode;
      tagDstarMode := r.tagDstarMode;
      lEPidMap := r.lEPidMap;
      lMuPidMap := r.lMuPidMap;
      sigDMode := r.sigDMode;
      sigDstarMode := r.sigDstarMode;
      sigTauMode := r.sigTauMode;
      hEPidMap := r.hEPidMap;
      hMuPidMap := r.hMuPidMap;
    }

    /** `operator=`: a copy unless the candidate is assigned to itself,
        which changes nothing; `cand` is never changed. */
    method Assign(cand: UpsilonCandidate)
      modifies this
      ensures Attributes() == old(cand.Attributes())
      ensures cand.Attributes() == old(cand.Attributes())
    {
      if this != cand {
        CopyCandidate(cand);
      }
    }

    /** `get_cand_type`: 4 for a rho signal tau, plus 2 for a tag D*, plus
        1 for a signal D*, cast to the candidate type; any of the three
        modes still null fails the source's assertions. */
    function GetCandType(): (r: Result<CandType>)
      reads this
      ensures r.Ok? <==> sigTauMode != TauType.Null && tagDstarMode != DstarType.Null && sigDstarMode != DstarType.Null
      ensures r.Ok? ==> r.value != CandType.Null
      ensures r.Ok? ==> (r.value.IsRho() <==> sigTauMode == TauType.tau_rho)
      ensures r.Ok? ==> (r.value.TagHasDstar() <==> tagDstarMode != DstarType.NoDstar)
      ensures r.Ok? ==> (r.value.SigHasDstar() <==> sigDstarMode != DstarType.NoDstar)
    {
      if sigTauMode == TauType.Null || tagDstarMode == DstarType.Null || sigDstarMode == DstarType.Null then Abort
      else
        var candType := 0;
        var candType := if sigTauMode == TauType.tau_rho then candType + 4 else candType;
        var candType := if tagDstarMode != DstarType.NoDstar then candType + 2 else candType;
        var candType := if sigDstarMode != DstarType.NoDstar then candType + 1 else candType;
        CandTypeBits(CandTypeOf(candType));
        Ok(CandTypeOf(candType))
    }

    /** `get_sample_type`: 2 for a neutral B, plus 1 for a signal D*, cast
        to the sample type; a null flavor or signal D* mode fails the
        source's assertions. */
    function GetSampleType(): (r: Result<SampleType>)
      reads this
      ensures r.Ok? <==> bflavor != BFlavor.Null && sigDstarMode != DstarType.Null
      ensures r.Ok? ==> r.value != SampleType.Null
      ensures r.Ok? ==> (r.value.IsB0() <==> bflavor == BFlavor.B0)
      ensures r.Ok? ==> (r.value.HasDstar() <==> sigDstarMode != DstarType.NoDstar)
    {
      if bflavor == BFlavor.Null || sigDstarMode == DstarType.Null then Abort
      else
        var sampleType := 0;
        var sampleType := if bflavor == BFlavor.B0 then sampleType + 2 else sampleType;
        var sampleType := if sigDstarMode != DstarType.NoDstar then sampleType + 1 else sampleType;
        SampleTypeBits(SampleTypeOf(sampleType));
        Ok(SampleTypeOf(sampleType))
    }
  }

  /** Two candidates get the same type exactly when they answer the three
      questions `get_cand_type` asks alike. */
  lemma CandTypesDistinguish(a: UpsilonCandidate, b: UpsilonCandidate)
    requires a.GetCandType().Ok? && b.GetCandType().Ok?
    ensures a.GetCandType() == b.GetCandType() <==>
              && (a.sigTauMode == TauType.tau_rho <==> b.sigTauMode == TauType.tau_rho)
              && (a.tagDstarMode == DstarType.NoDstar <==> b.tagDstarMode == DstarType.NoDstar)
              && (a.sigDstarMode == DstarType.NoDstar <==> b.sigDstarMode == DstarType.NoDstar)
  {
    var x := a.GetCandType().value;
    var y := b.GetCandType().value;
    CandTypeBits(x);
    CandTypeBits(y);
  }

  /** A default candidate has no candidate type and no sample type yet. */
  lemma DefaultHasNoTypes(cand: UpsilonCandidate)
    requires cand.Attributes() == DefaultRecord
    ensures cand.GetCandType().Abort? && cand.GetSampleType().Abort?
  {
  }
}
