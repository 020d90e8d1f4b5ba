/** Parameters and constant tables of the 802.11ax PPDU calculation in apps/transmit.c. */
module HeTables {
  const MCS_MF: seq<nat> := [1, 2, 3, 4, 6, 8, 9, 10]
  const RU_NDBPS: seq<nat> := [12, 24, 51, 117]
  const RU_NDBPS_SHORT: seq<nat> := [3, 6, 12, 30]
  const DCM_SHORT_RU: seq<nat> := [1, 3, 6, 15, 0]
  const DCM_SHORT_MCS: seq<nat> := [1, 2, 0, 4, 6]
  const LTF_GI: seq<(nat, nat)> := [
    (40, 8), (72, 8), (80, 16), (160, 32),
    (48, 16), (80, 16), (160, 32), (0, 0),
    (136, 8), (72, 8), (80, 16), (160, 32)]
  const RATE_NUM: seq<nat> := [1, 1, 3, 1, 3, 2, 3, 5]
  const RATE_DEN: seq<nat> := [2, 2, 4, 2, 4, 3, 4, 6]
  const DCM_RATE_NUM: seq<nat> := [1, 1, 0, 1, 3]
  const DCM_RATE_DEN: seq<nat> := [2, 2, 0, 2, 4]

  const SIGB_BITS: seq<nat> := [26, 52, 78, 104, 156, 208, 234, 260]

  datatype PpduType = SU | ERSU | TB | MU

  /** The decoded arguments of get_11ax_pkt_duration. `nominalPe` is in microseconds; `ruWidth` is
    * 0 to 3 for 26, 52, 106 and 242 tones; `heLtfs` is the HE-LTF field of a TB PPDU; `users` and
    * the `sigB` fields describe the SIG-B of an MU PPDU. */
  datatype Params = Params(
    ppdu: PpduType, mcs: nat, dcm: bool, stbc: bool, giLtf: nat, nominalPe: nat, ldpc: bool,
    ruWidth: nat, heLtfs: nat, users: nat, sigBCompressed: bool, sigBMcs: nat, sigBDcm: bool)

  predicate LegalRate(mcs: nat, dcm: bool, ruWidth: nat) {
    mcs < 8 && ruWidth < 4 && (dcm ==> mcs in {0, 1, 3, 4})
  }

  /** The ranges that `main` checks, and DCM only where the tables define it. */
  predicate Legal(p: Params) {
    && LegalRate(p.mcs, p.dcm, p.ruWidth)
    && p.giLtf < 4 && p.nominalPe in {0, 8, 16} && p.heLtfs < 8
    && 1 <= p.users <= 9 && p.sigBMcs <= 5
  }

  function NDbps(mcs: nat, dcm: bool, ruWidth: nat): nat
    requires LegalRate(mcs, dcm, ruWidth)
  {
    var v := RU_NDBPS[ruWidth] * MCS_MF[mcs];
    if dcm then v / 2 else v
  }

  function NDbpsShort(mcs: nat, dcm: bool, ruWidth: nat): nat
    requires LegalRate(mcs, dcm, ruWidth)
  {
    if dcm then DCM_SHORT_RU[ruWidth] * DCM_SHORT_MCS[mcs] else MCS_MF[mcs] * RU_NDBPS_SHORT[ruWidth]
  }

  /** Three short segments never fill a symbol: what makes the four segments of a symbol distinct. */
  lemma ThreeSegmentsFit(mcs: nat, dcm: bool, ruWidth: nat)
    requires LegalRate(mcs, dcm, ruWidth)
    ensures 0 < NDbpsShort(mcs, dcm, ruWidth)
    ensures 3 * NDbpsShort(mcs, dcm, ruWidth) < NDbps(mcs, dcm, ruWidth) <= 1170
  {
    assert ruWidth == 0 || ruWidth == 1 || ruWidth == 2 || ruWidth == 3;
  }

  // ---------------------------------------------------------------- the tables against the standard

  const DATA_TONES: seq<nat> := [24, 48, 102, 234]
  const DATA_TONES_SHORT: seq<nat> := [6, 12, 24, 60]
  const DATA_TONES_SHORT_DCM: seq<nat> := [2, 6, 12, 30]
  const BITS_PER_TONE: seq<nat> := [1, 2, 2, 4, 4, 6, 6, 6]
  const SIGB_TONES := 52

  /** Data bits per symbol: coded bits of the data tones, half of them with DCM, at the code rate,
    * rounded down. */
  lemma RatesAreStandard(mcs: nat, dcm: bool, ruWidth: nat)
    requires LegalRate(mcs, dcm, ruWidth)
    ensures var tones := if dcm then DATA_TONES[ruWidth] / 2 else DATA_TONES[ruWidth];
            NDbps(mcs, dcm, ruWidth) == tones * BITS_PER_TONE[mcs] * RATE_NUM[mcs] / RATE_DEN[mcs]
    ensures dcm ==> DCM_RATE_NUM[mcs] == RATE_NUM[mcs] && DCM_RATE_DEN[mcs] == RATE_DEN[mcs]
  {
    assert ruWidth == 0 || ruWidth == 1 || ruWidth == 2 || ruWidth == 3;
    assert mcs == 0 || mcs == 1 || mcs == 2 || mcs == 3 || mcs == 4 || mcs == 5 || mcs == 6 || mcs == 7;
  }

  /** The same for a short segment. */
  lemma ShortRatesAreStandard(mcs: nat, dcm: bool, ruWidth: nat)
    requires LegalRate(mcs, dcm, ruWidth)
    ensures var tones := if dcm then DATA_TONES_SHORT_DCM[ruWidth] else DATA_TONES_SHORT[ruWidth];
            NDbpsShort(mcs, dcm, ruWidth) == tones * BITS_PER_TONE[mcs] * RATE_NUM[mcs] / RATE_DEN[mcs]
  {
    assert ruWidth == 0 || ruWidth == 1 || ruWidth == 2 || ruWidth == 3;
    assert mcs == 0 || mcs == 1 || mcs == 2 || mcs == 3 || mcs == 4 || mcs == 5 || mcs == 6 || mcs == 7;
  }

  /** The same for the symbols of SIG-B, on 52 tones. */
  lemma SigBRatesAreStandard(mcs: nat)
    requires mcs < 8
    ensures SIGB_BITS[mcs] * RATE_DEN[mcs] == SIGB_TONES * BITS_PER_TONE[mcs] * RATE_NUM[mcs]
  {
    assert mcs == 0 || mcs == 1 || mcs == 2 || mcs == 3 || mcs == 4 || mcs == 5 || mcs == 6 || mcs == 7;
  }
}
