/** The LDPC extra-symbol check of apps/transmit.c against section 27.3.12.5.2 of
  * IEEE Std 802.11ax-2021 and section 19.3.11.7.5 of IEEE Std 802.11. */
module Ldpc {
  import opened Arith
  import opened HeTables

  const RD_LCM := 12

  function RateNum(mcs: nat, dcm: bool): nat
    requires mcs < 8 && (dcm ==> mcs < 5)
  {
    if dcm then DCM_RATE_NUM[mcs] else RATE_NUM[mcs]
  }

  function RateDen(mcs: nat, dcm: bool): nat
    requires mcs < 8 && (dcm ==> mcs < 5)
  {
    if dcm then DCM_RATE_DEN[mcs] else RATE_DEN[mcs]
  }

  predicate IsRate(rn: nat, rd: nat) {
    (rn == 1 && rd == 2) || (rn == 2 && rd == 3) || (rn == 3 && rd == 4) || (rn == 5 && rd == 6)
  }

  /** Payload bits the symbols carry, as the code computes them. */
  function Npld(short: nat, dbps: nat, a: nat, nSym: nat): nat
    requires 1 <= nSym
  {
    Mul(nSym - 1, dbps) + Mul(a, short)
  }

  /** Coded bits for a number of data bits at rate rn/rd. */
  function Coded(bits: nat, rn: nat, rd: nat): nat
    requires IsRate(rn, rd)
  {
    bits * rd / rn
  }

  function Mul(x: nat, y: nat): nat { x * y }

  /** Coded bits available in the symbols. */
  function Navbits(short: nat, dbps: nat, a: nat, nSym: nat, rn: nat, rd: nat): nat
    requires 1 <= nSym && IsRate(rn, rd)
  {
    var cbps, cbpsShort := Coded(dbps, rn, rd), Coded(short, rn, rd);
    Mul(nSym - 1, cbps) + (if a == 4 then cbps else Mul(a, cbpsShort))
  }

  function CodewordLength(npld: nat, navbits: nat, rn: nat, rd: nat): nat
    requires IsRate(rn, rd)
  {
    if navbits <= 648 then
      if RD_LCM * navbits * rd >= RD_LCM * npld * rd + 912 * RD_LCM * (rd - rn) then 1296 else 648
    else if navbits <= 1296 then
      if RD_LCM * navbits * rd >= RD_LCM * npld * rd + 1464 * RD_LCM * (rd - rn) then 1944 else 1296
    else if navbits <= 1944 then 1944
    else if navbits <= 2592 then
      if RD_LCM * navbits * rd >= RD_LCM * npld * rd + 2916 * RD_LCM * (rd - rn) then 1944 else 1296
    else 1944
  }

  function Codewords(npld: nat, navbits: nat, rn: nat, rd: nat): nat
    requires IsRate(rn, rd)
  {
    if navbits <= 1944 then 1
    else if navbits <= 2592 then 2
    else
      var full := 1944 * rn / rd;
      npld / full + (if npld % full != 0 then 1 else 0)
  }

  /** Payload bits of one codeword: the switch over the MCS. */
  function Payload(mcs: nat, lldpc: nat): nat
    requires mcs < 8
  {
    if mcs in {0, 1, 3} then lldpc / 2
    else if mcs == 5 then lldpc / 3 * 2
    else if mcs in {2, 4, 6} then lldpc / 4 * 3
    else lldpc / 6 * 5
  }

  datatype Plan = Plan(ncw: nat, lldpc: nat, payload: nat, nshrt: nat, npunct: nat)

  function PlanOf(mcs: nat, npld: nat, navbits: nat, rn: nat, rd: nat): Plan
    requires IsRate(rn, rd) && mcs < 8
  {
    var lldpc := CodewordLength(npld, navbits, rn, rd);
    Accounted(Codewords(npld, navbits, rn, rd), lldpc, Payload(mcs, lldpc), npld, navbits)
  }

  /** Shortening fills the codewords up to their payload; puncturing fits them to the bits on air. */
  function Accounted(ncw: nat, lldpc: nat, payload: nat, npld: nat, navbits: nat): Plan {
    var nshrt := if ncw * payload <= npld then 0 else ncw * payload - npld;
    var npunct := if ncw * lldpc <= navbits + nshrt then 0 else ncw * lldpc - navbits - nshrt;
    Plan(ncw, lldpc, payload, nshrt, npunct)
  }

  predicate NeedsExtra(pl: Plan, rn: nat, rd: nat)
    requires rn <= rd
  {
    || (pl.npunct * 10 * rd > pl.ncw * pl.lldpc * (rd - rn) && pl.nshrt * 10 * (rd - rn) < 12 * pl.npunct * rn)
    || pl.npunct * 10 * rd > 3 * pl.ncw * pl.lldpc * (rd - rn)
  }

  /** The plan for a legal rate, from the function's own arguments. */
  function PlanFor(mcs: nat, short: nat, dbps: nat, a: nat, nSym: nat, dcm: bool): Plan
    requires 1 <= nSym && LegalRate(mcs, dcm, 0)
  {
    var rn, rd := RateNum(mcs, dcm), RateDen(mcs, dcm);
    PlanOf(mcs, Npld(short, dbps, a, nSym), Navbits(short, dbps, a, nSym, rn, rd), rn, rd)
  }

  /** ldpc_extra_sym_check */
  function ExtraSymCheck(mcs: nat, short: nat, dbps: nat, a: nat, nSym: nat, dcm: bool): bool
    requires 1 <= nSym && LegalRate(mcs, dcm, 0)
  {
    NeedsExtra(PlanFor(mcs, short, dbps, a, nSym, dcm), RateNum(mcs, dcm), RateDen(mcs, dcm))
  }

  lemma RateIsLegal(mcs: nat, dcm: bool, ruWidth: nat)
    requires LegalRate(mcs, dcm, ruWidth)
    ensures IsRate(RateNum(mcs, dcm), RateDen(mcs, dcm))
  {}

  // ---------------------------------------------------------------- the standard, over the reals

  function R(rn: nat, rd: nat): real
    requires 0 < rd
  {
    rn as real / rd as real
  }

  /** Number and length of codewords: table of section 19.3.11.7.5. */
  function StdLength(npld: nat, navbits: nat, r: real): nat {
    if navbits <= 648 then if navbits as real >= npld as real + 912.0 * (1.0 - r) then 1296 else 648
    else if navbits <= 1296 then if navbits as real >= npld as real + 1464.0 * (1.0 - r) then 1944 else 1296
    else if navbits <= 1944 then 1944
    else if navbits <= 2592 then if navbits as real >= npld as real + 2916.0 * (1.0 - r) then 1944 else 1296
    else 1944
  }

  /** When the extra symbol segment is needed: section 27.3.12.5.2. */
  predicate StdExtra(pl: Plan, r: real)
    requires r < 1.0
  {
    var capacity := (pl.ncw * pl.lldpc) as real;
    var npunct := pl.npunct as real;
    || (npunct > 0.1 * capacity * (1.0 - r) && pl.nshrt as real < 1.2 * npunct * (r / (1.0 - r)))
    || npunct > 0.3 * capacity * (1.0 - r)
  }

  /** The integer tests of the code are the real-valued tests of the standard. */
  lemma IntegerTestsMatchStandard(mcs: nat, npld: nat, navbits: nat, rn: nat, rd: nat)
    requires IsRate(rn, rd) && mcs < 8
    ensures CodewordLength(npld, navbits, rn, rd) == StdLength(npld, navbits, R(rn, rd))
    ensures R(rn, rd) < 1.0
    ensures var pl := PlanOf(mcs, npld, navbits, rn, rd);
            NeedsExtra(pl, rn, rd) <==> StdExtra(pl, R(rn, rd))
  {
    LengthTestMatches(npld, navbits, rn, rd);
    ExtraTestMatches(PlanOf(mcs, npld, navbits, rn, rd), rn, rd);
  }

  lemma LengthTestMatches(npld: nat, navbits: nat, rn: nat, rd: nat)
    requires IsRate(rn, rd)
    ensures CodewordLength(npld, navbits, rn, rd) == StdLength(npld, navbits, R(rn, rd))
  {
    if rn == 1 { } else if rn == 2 { } else if rn == 3 { } else { }
  }

  lemma ExtraTestMatches(pl: Plan, rn: nat, rd: nat)
    requires IsRate(rn, rd)
    ensures R(rn, rd) < 1.0
    ensures NeedsExtra(pl, rn, rd) <==> StdExtra(pl, R(rn, rd))
  {
    RedundancyIsOneShare(rn, rd);
    IntegerTest(pl, rn, rd);
    RealTest(pl, rn, rd, R(rn, rd));
    ThresholdsMatch(pl.npunct, pl.nshrt, pl.ncw * pl.lldpc, rn, rd);
  }

  lemma IntegerTest(pl: Plan, rn: nat, rd: nat)
    requires rd == rn + 1
    ensures var c := pl.ncw * pl.lldpc;
            NeedsExtra(pl, rn, rd) <==>
            (pl.npunct * 10 * rd > c && pl.nshrt * 10 < 12 * pl.npunct * rn) || pl.npunct * 10 * rd > 3 * c
  {
    Assoc(3, pl.ncw, pl.lldpc);
  }

  lemma RealTest(pl: Plan, rn: nat, rd: nat, r: real)
    requires 0 < rd && r < 1.0 && 1.0 - r == 1.0 / rd as real && r / (1.0 - r) == rn as real
    ensures var c := (pl.ncw * pl.lldpc) as real;
            StdExtra(pl, r) <==>
            || (pl.npunct as real > 0.1 * c * (1.0 / rd as real)
                && pl.nshrt as real < 1.2 * pl.npunct as real * rn as real)
            || pl.npunct as real > 0.3 * c * (1.0 / rd as real)
  {}

  /** The redundancy of every rate is one part in `rd`. */
  lemma RedundancyIsOneShare(rn: nat, rd: nat)
    requires IsRate(rn, rd)
    ensures rd - rn == 1 && 1.0 - R(rn, rd) == 1.0 / rd as real && R(rn, rd) / (1.0 - R(rn, rd)) == rn as real
  {
    if rn == 1 { } else if rn == 2 { } else if rn == 3 { } else { }
  }

  lemma ThresholdsMatch(npunct: nat, nshrt: nat, c: nat, rn: nat, rd: nat)
    requires IsRate(rn, rd)
    ensures npunct * 10 * rd > c <==> npunct as real > 0.1 * c as real * (1.0 / rd as real)
    ensures npunct * 10 * rd > 3 * c <==> npunct as real > 0.3 * c as real * (1.0 / rd as real)
    ensures nshrt * 10 < 12 * npunct * rn <==> nshrt as real < 1.2 * npunct as real * rn as real
  {
    if rn == 1 { } else if rn == 2 { } else if rn == 3 { } else { }
  }

  // ---------------------------------------------------------------- bookkeeping

  /** Within each codeword-length class the payload fits what the class can carry at the rate. */
  predicate FitsClasses(npld: nat, navbits: nat, rn: nat, rd: nat) {
    && (navbits <= 648 ==> npld * rd <= 648 * rn)
    && (navbits <= 1296 ==> npld * rd <= 1296 * rn)
    && (navbits <= 1944 ==> npld * rd <= 1944 * rn)
    && (navbits <= 2592 ==> npld * rd <= 2592 * rn)
  }

  lemma PlainExact(mcs: nat, ru: nat)
    requires mcs < 8
    ensures var rn, rd := RATE_NUM[mcs], RATE_DEN[mcs];
            IsRate(rn, rd) && Coded(ru * MCS_MF[mcs], rn, rd) * rn == ru * MCS_MF[mcs] * rd
  {
    assert mcs == 0 || mcs == 1 || mcs == 2 || mcs == 3 || mcs == 4 || mcs == 5 || mcs == 6 || mcs == 7;
    FactorExact(ru, MCS_MF[mcs], RATE_NUM[mcs], RATE_DEN[mcs]);
  }

  lemma FactorExact(ru: nat, mf: nat, rn: nat, rd: nat)
    requires IsRate(rn, rd) && mf * rd % rn == 0
    ensures Coded(ru * mf, rn, rd) * rn == ru * mf * rd
  {
    var k := mf * rd / rn;
    Assoc(ru, mf, rd);
    Assoc(ru, k, rn);
    DivUnique(ru * mf * rd, rn, ru * k);
  }

  lemma DcmExact(mcs: nat, ruWidth: nat)
    requires LegalRate(mcs, true, ruWidth)
    ensures var rn, rd := DCM_RATE_NUM[mcs], DCM_RATE_DEN[mcs];
            && IsRate(rn, rd)
            && Coded(NDbps(mcs, true, ruWidth), rn, rd) * rn == NDbps(mcs, true, ruWidth) * rd
            && Coded(NDbpsShort(mcs, true, ruWidth), rn, rd) * rn == NDbpsShort(mcs, true, ruWidth) * rd
  {
    assert ruWidth == 0 || ruWidth == 1 || ruWidth == 2 || ruWidth == 3;
  }

  /** The tables make the coded sizes exact: the divisions in the code leave no remainder. */
  lemma CodedExact(mcs: nat, dcm: bool, ruWidth: nat)
    requires LegalRate(mcs, dcm, ruWidth)
    ensures var rn, rd := RateNum(mcs, dcm), RateDen(mcs, dcm);
            var dbps, short := NDbps(mcs, dcm, ruWidth), NDbpsShort(mcs, dcm, ruWidth);
            && IsRate(rn, rd)
            && Coded(dbps, rn, rd) * rn == dbps * rd
            && Coded(short, rn, rd) * rn == short * rd
  {
    if dcm {
      DcmExact(mcs, ruWidth);
    } else {
      PlainExact(mcs, RU_NDBPS[ruWidth]);
      PlainExact(mcs, RU_NDBPS_SHORT[ruWidth]);
    }
  }

  /** Coded bits a 242-tone surplus takes up, by the coded size of its symbol. */
  function CodedSurplus(cbps: nat): nat {
    if cbps == 116 then 4 else cbps / 39
  }

  predicate WideRu(cbps: nat) {
    cbps in {116, 234, 468, 936, 1404}
  }

  /** Four short segments exceed a symbol only on 242 tones, and by how much. */
  lemma FourSegments(mcs: nat, dcm: bool, ruWidth: nat)
    requires LegalRate(mcs, dcm, ruWidth)
    ensures var rn, rd := RateNum(mcs, dcm), RateDen(mcs, dcm);
            var dbps, short := NDbps(mcs, dcm, ruWidth), NDbpsShort(mcs, dcm, ruWidth);
            && IsRate(rn, rd)
            && (ruWidth < 3 ==> 4 * short <= dbps)
            && (ruWidth == 3 ==>
                  var cbps := Coded(dbps, rn, rd);
                  WideRu(cbps) && dbps < 4 * short && (4 * short - dbps) * rd == CodedSurplus(cbps) * rn)
  {
    if ruWidth == 3 {
      assert mcs == 0 || mcs == 1 || mcs == 2 || mcs == 3 || mcs == 4 || mcs == 5 || mcs == 6 || mcs == 7;
    } else {
      assert ruWidth == 0 || ruWidth == 1 || ruWidth == 2;
    }
  }

  /** No codeword class ends within the surplus of a whole number of 242-tone symbols. */
  lemma SurplusStaysInClass(nSym: nat, cbps: nat, limit: nat)
    requires WideRu(cbps) && limit in {648, 1296, 1944, 2592} && nSym * cbps <= limit
    ensures nSym * cbps + CodedSurplus(cbps) <= limit
  {
    if cbps == 116 { } else if cbps == 234 { } else if cbps == 468 { } else if cbps == 936 { } else { }
  }

  lemma ScaledSum(k: int, u: int, a: int, v: int, r: int, c: int, cs: int, q: int)
    requires u * r == c * q && v * r == cs * q
    ensures (k * u + a * v) * r == (k * c + a * cs) * q
  {
    calc {
      (k * u + a * v) * r;
      k * (u * r) + a * (v * r);
      k * (c * q) + a * (cs * q);
      (k * c + a * cs) * q;
    }
  }

  /** Payload and coded bits stand in the ratio of the rate, up to the surplus when a == 4. */
  lemma PayloadScales(short: nat, dbps: nat, a: nat, nSym: nat, rn: nat, rd: nat)
    requires 1 <= nSym && 1 <= a <= 4 && IsRate(rn, rd)
    requires Coded(dbps, rn, rd) * rn == dbps * rd && Coded(short, rn, rd) * rn == short * rd
    ensures var nav := Navbits(short, dbps, a, nSym, rn, rd);
            && (a < 4 ==> Npld(short, dbps, a, nSym) * rd == nav * rn)
            && (a == 4 ==> nav == nSym * Coded(dbps, rn, rd)
                           && Npld(short, dbps, a, nSym) * rd == nav * rn + (4 * short - dbps) * rd)
  {
    var k, c, cs := nSym - 1, Coded(dbps, rn, rd), Coded(short, rn, rd);
    if a < 4 {
      ScaledSum(k, dbps, a, short, rd, c, cs, rn);
    } else {
      ScaledSum(k, dbps, 1, dbps, rd, c, c, rn);
      assert (k * dbps + 4 * short) * rd == (k * dbps + 1 * dbps) * rd + (4 * short - dbps) * rd;
    }
  }

  lemma SymbolsFitClasses(mcs: nat, dcm: bool, ruWidth: nat, a: nat, nSym: nat)
    requires LegalRate(mcs, dcm, ruWidth) && 1 <= a <= 4 && 1 <= nSym
    ensures var rn, rd := RateNum(mcs, dcm), RateDen(mcs, dcm);
            var dbps, short := NDbps(mcs, dcm, ruWidth), NDbpsShort(mcs, dcm, ruWidth);
            IsRate(rn, rd) &&
            FitsClasses(Npld(short, dbps, a, nSym), Navbits(short, dbps, a, nSym, rn, rd), rn, rd)
  {
    var rn, rd := RateNum(mcs, dcm), RateDen(mcs, dcm);
    var dbps, short := NDbps(mcs, dcm, ruWidth), NDbpsShort(mcs, dcm, ruWidth);
    CodedExact(mcs, dcm, ruWidth);
    FourSegments(mcs, dcm, ruWidth);
    PayloadScales(short, dbps, a, nSym, rn, rd);
    FitsFromScale(Npld(short, dbps, a, nSym), Navbits(short, dbps, a, nSym, rn, rd), rn, rd, a, nSym,
                  Coded(dbps, rn, rd), 4 * short, dbps);
  }

  lemma FitsFromScale(npld: nat, nav: nat, rn: nat, rd: nat, a: nat, nSym: nat, cbps: nat, segments: nat, dbps: nat)
    requires IsRate(rn, rd)
    requires a != 4 ==> npld * rd == nav * rn
    requires a == 4 ==> nav == nSym * cbps && npld * rd == nav * rn + (segments - dbps) * rd
    requires segments > dbps ==> WideRu(cbps) && (segments - dbps) * rd == CodedSurplus(cbps) * rn
    ensures FitsClasses(npld, nav, rn, rd)
  {
    forall limit: nat | limit in {648, 1296, 1944, 2592} && nav <= limit
      ensures npld * rd <= limit * rn
    {
      FitsLimit(npld, nav, rn, rd, a, nSym, cbps, segments, dbps, limit);
    }
  }

  lemma FitsLimit(npld: nat, nav: nat, rn: nat, rd: nat, a: nat, nSym: nat, cbps: nat, segments: nat, dbps: nat, limit: nat)
    requires limit in {648, 1296, 1944, 2592} && nav <= limit
    requires a != 4 ==> npld * rd == nav * rn
    requires a == 4 ==> nav == nSym * cbps && npld * rd == nav * rn + (segments - dbps) * rd
    requires segments > dbps ==> WideRu(cbps) && (segments - dbps) * rd == CodedSurplus(cbps) * rn
    ensures npld * rd <= limit * rn
  {
    MulLe(nav, limit, rn);
    if a == 4 {
      if segments > dbps {
        SurplusStaysInClass(nSym, cbps, limit);
        MulLe(nav + CodedSurplus(cbps), limit, rn);
        Distrib(nav, CodedSurplus(cbps), rn);
      } else {
        MulLe(segments - dbps, 0, rd);
      }
    }
  }

  lemma PayloadIsRate(mcs: nat, dcm: bool, lldpc: nat)
    requires LegalRate(mcs, dcm, 0) && lldpc in {648, 1296, 1944}
    ensures Payload(mcs, lldpc) * RateDen(mcs, dcm) == lldpc * RateNum(mcs, dcm)
  {
    assert mcs == 0 || mcs == 1 || mcs == 2 || mcs == 3 || mcs == 4 || mcs == 5 || mcs == 6 || mcs == 7;
  }

  /** The chosen codewords hold the payload, and no more codewords are used than needed for it
    * in the open-ended class. */
  lemma CodewordsHoldPayload(mcs: nat, dcm: bool, npld: nat, navbits: nat)
    requires LegalRate(mcs, dcm, 0) && npld > 0
    requires FitsClasses(npld, navbits, RateNum(mcs, dcm), RateDen(mcs, dcm))
    ensures var pl := PlanOf(mcs, npld, navbits, RateNum(mcs, dcm), RateDen(mcs, dcm));
            && pl.lldpc in {648, 1296, 1944}
            && npld <= pl.ncw * pl.payload
            && (navbits > 2592 ==> (pl.ncw - 1) * pl.payload < npld)
  {
    var rn, rd := RateNum(mcs, dcm), RateDen(mcs, dcm);
    var pl := PlanOf(mcs, npld, navbits, rn, rd);
    PayloadIsRate(mcs, dcm, pl.lldpc);
    assert pl.payload * rd == pl.lldpc * rn;
    if navbits > 2592 {
      FullCodewords(npld, pl.payload, rn, rd);
    } else {
      LeFromScaled(npld, pl.ncw * pl.payload, rd);
    }
  }

  lemma FullCodewords(npld: nat, payload: nat, rn: nat, rd: nat)
    requires IsRate(rn, rd) && payload * rd == 1944 * rn && npld > 0
    ensures 1944 * rn / rd == payload
    ensures var c := npld / payload + (if npld % payload != 0 then 1 else 0);
            (c - 1) * payload < npld <= c * payload
  {
    if rn == 1 { } else if rn == 2 { } else if rn == 3 { } else { }
    CeilDivides(npld, payload);
  }

  lemma LeFromScaled(x: nat, y: nat, k: nat)
    requires k > 0 && x * k <= y * k
    ensures x <= y
  {
    if x > y {
      MulLe(y + 1, x, k);
    }
  }

  lemma CeilDivides(x: nat, d: nat)
    requires d > 0 && x > 0
    ensures var c := x / d + (if x % d != 0 then 1 else 0);
            (c - 1) * d < x <= c * d
  {
    var q := x / d;
    assert x == q * d + x % d;
    assert (q + 1) * d == q * d + d && (q - 1) * d == q * d - d;
  }

  /** Repetition bits the standard would add: section 19.3.11.7.5. */
  function Repeated(pl: Plan, npld: nat, navbits: nat): nat {
    var needed := pl.ncw * pl.lldpc - pl.ncw * pl.payload + npld;
    if navbits > needed then navbits - needed else 0
  }

  /** Exact accounting for every legal rate and symbol count: shortening is exactly the slack of
    * the codewords, and codeword bits are conserved against the bits on air. */
  lemma BookkeepingExact(mcs: nat, dcm: bool, ruWidth: nat, a: nat, nSym: nat)
    requires LegalRate(mcs, dcm, ruWidth) && 1 <= a <= 4 && 1 <= nSym
    ensures var rn, rd := RateNum(mcs, dcm), RateDen(mcs, dcm);
            var dbps, short := NDbps(mcs, dcm, ruWidth), NDbpsShort(mcs, dcm, ruWidth);
            var npld := Npld(short, dbps, a, nSym);
            var nav := Navbits(short, dbps, a, nSym, rn, rd);
            var pl := PlanFor(mcs, short, dbps, a, nSym, dcm);
            && npld + pl.nshrt == pl.ncw * pl.payload
            && pl.ncw * pl.lldpc + Repeated(pl, npld, nav) == nav + pl.nshrt + pl.npunct
            && (pl.npunct == 0 || Repeated(pl, npld, nav) == 0)
            && pl.payload * rd == pl.lldpc * rn
  {
    var rn, rd := RateNum(mcs, dcm), RateDen(mcs, dcm);
    var dbps, short := NDbps(mcs, dcm, ruWidth), NDbpsShort(mcs, dcm, ruWidth);
    var npld := Npld(short, dbps, a, nSym);
    var nav := Navbits(short, dbps, a, nSym, rn, rd);
    ThreeSegmentsFit(mcs, dcm, ruWidth);
    MulLe(1, a, short);
    SymbolsFitClasses(mcs, dcm, ruWidth, a, nSym);
    CodewordsHoldPayload(mcs, dcm, npld, nav);
    var pl := PlanOf(mcs, npld, nav, rn, rd);
    PayloadIsRate(mcs, dcm, pl.lldpc);
    AccountedExact(pl.ncw, pl.lldpc, pl.payload, npld, nav);
  }

  /** The accounting of codewords that hold the payload. */
  lemma AccountedExact(ncw: nat, lldpc: nat, payload: nat, npld: nat, navbits: nat)
    requires npld <= ncw * payload
    ensures var pl := Accounted(ncw, lldpc, payload, npld, navbits);
            && npld + pl.nshrt == ncw * payload
            && ncw * lldpc + Repeated(pl, npld, navbits) == navbits + pl.nshrt + pl.npunct
            && (pl.npunct == 0 || Repeated(pl, npld, navbits) == 0)
  {}

  /** Payload bits as section 27.3.12.5.2 defines them: a full last symbol when a is 4. */
  function StdNpld(short: nat, dbps: nat, a: nat, nSym: nat): nat
    requires 1 <= nSym
  {
    Mul(nSym - 1, dbps) + (if a == 4 then dbps else Mul(a, short))
  }

  /** The code counts four short segments instead of a full symbol when a is 4. It meets the
    * standard exactly where the two agree: on 52 tones, and on 26 tones without DCM. */
  lemma NpldStandardIff(mcs: nat, dcm: bool, ruWidth: nat, a: nat, nSym: nat)
    requires LegalRate(mcs, dcm, ruWidth) && 1 <= a <= 4 && 1 <= nSym
    ensures var dbps, short := NDbps(mcs, dcm, ruWidth), NDbpsShort(mcs, dcm, ruWidth);
            Npld(short, dbps, a, nSym) == StdNpld(short, dbps, a, nSym) <==>
            a != 4 || ruWidth == 1 || (ruWidth == 0 && !dcm)
  {
    assert ruWidth == 0 || ruWidth == 1 || ruWidth == 2 || ruWidth == 3;
    assert mcs == 0 || mcs == 1 || mcs == 2 || mcs == 3 || mcs == 4 || mcs == 5 || mcs == 6 || mcs == 7;
  }

  /** The standard's plan: payload as it defines it, codeword length and number of codewords from
    * the real-valued rate. */
  function StdPlan(npld: nat, navbits: nat, r: real): Plan
    requires 0.5 <= r < 1.0
  {
    var lldpc := StdLength(npld, navbits, r);
    var payload: nat := (lldpc as real * r).Floor;
    Accounted(StdCodewords(npld, navbits, r), lldpc, payload, npld, navbits)
  }

  function StdCodewords(npld: nat, navbits: nat, r: real): nat
    requires 0.5 <= r
  {
    if navbits <= 1944 then 1 else if navbits <= 2592 then 2 else Ceil(npld as real / (1944.0 * r))
  }

  function Ceil(x: real): nat
    requires 0.0 <= x
  {
    if x == x.Floor as real then x.Floor else x.Floor + 1
  }

  /** What the standard decides about the extra segment. */
  predicate StdDecision(mcs: nat, dcm: bool, ruWidth: nat, a: nat, nSym: nat)
    requires LegalRate(mcs, dcm, ruWidth) && 1 <= nSym
  {
    RateIsLegal(mcs, dcm, ruWidth);
    var rn, rd := RateNum(mcs, dcm), RateDen(mcs, dcm);
    var dbps, short := NDbps(mcs, dcm, ruWidth), NDbpsShort(mcs, dcm, ruWidth);
    RateBounds(rn, rd);
    StdExtra(StdPlan(StdNpld(short, dbps, a, nSym), Navbits(short, dbps, a, nSym, rn, rd), R(rn, rd)), R(rn, rd))
  }

  lemma RateBounds(rn: nat, rd: nat)
    requires IsRate(rn, rd)
    ensures 0.5 <= R(rn, rd) < 1.0
  {
    if rn == 1 { } else if rn == 2 { } else if rn == 3 { } else { }
  }

  /** The switch over the MCS, and the rounded-up division, are the standard's plan. */
  lemma PlanIsStandard(mcs: nat, dcm: bool, npld: nat, navbits: nat)
    requires LegalRate(mcs, dcm, 0)
    ensures var rn, rd := RateNum(mcs, dcm), RateDen(mcs, dcm);
            IsRate(rn, rd) && 0.5 <= R(rn, rd) < 1.0
            && PlanOf(mcs, npld, navbits, rn, rd) == StdPlan(npld, navbits, R(rn, rd))
  {
    var rn, rd := RateNum(mcs, dcm), RateDen(mcs, dcm);
    RateIsLegal(mcs, dcm, 0);
    RateBounds(rn, rd);
    LengthTestMatches(npld, navbits, rn, rd);
    var lldpc := CodewordLength(npld, navbits, rn, rd);
    PayloadIsRate(mcs, dcm, lldpc);
    PayloadIsFloor(Payload(mcs, lldpc), lldpc, rn, rd);
    CodewordCount(npld, navbits, rn, rd);
    SamePlan(mcs, npld, navbits, rn, rd, R(rn, rd));
  }

  lemma SamePlan(mcs: nat, npld: nat, navbits: nat, rn: nat, rd: nat, r: real)
    requires IsRate(rn, rd) && mcs < 8 && 0.5 <= r < 1.0
    requires StdLength(npld, navbits, r) == CodewordLength(npld, navbits, rn, rd)
    requires StdCodewords(npld, navbits, r) == Codewords(npld, navbits, rn, rd)
    requires (CodewordLength(npld, navbits, rn, rd) as real * r).Floor
             == Payload(mcs, CodewordLength(npld, navbits, rn, rd))
    ensures PlanOf(mcs, npld, navbits, rn, rd) == StdPlan(npld, navbits, r)
  {}

  lemma PayloadIsFloor(payload: nat, lldpc: nat, rn: nat, rd: nat)
    requires IsRate(rn, rd) && payload * rd == lldpc * rn
    ensures (lldpc as real * R(rn, rd)).Floor == payload
  {
    assert lldpc as real * R(rn, rd) == payload as real by {
      if rn == 1 { } else if rn == 2 { } else if rn == 3 { } else { }
    }
  }

  lemma CodewordCount(npld: nat, navbits: nat, rn: nat, rd: nat)
    requires IsRate(rn, rd) && 0.5 <= R(rn, rd)
    ensures Codewords(npld, navbits, rn, rd) == StdCodewords(npld, navbits, R(rn, rd))
  {
    var full := 1944 * rn / rd;
    FullIsReal(rn, rd);
    CeilOfQuotient(npld, full);
  }

  lemma FullIsReal(rn: nat, rd: nat)
    requires IsRate(rn, rd)
    ensures 1944 * rn / rd > 0 && 1944.0 * R(rn, rd) == (1944 * rn / rd) as real
  {
    if rn == 1 { } else if rn == 2 { } else if rn == 3 { } else { }
  }

  lemma CeilOfQuotient(x: nat, d: nat)
    requires 0 < d
    ensures Ceil(x as real / d as real) == x / d + (if x % d != 0 then 1 else 0)
  {
    var q, r := x / d, x % d;
    QuotientParts(x as real, d as real, q as real, r as real);
    CeilBetween(x as real / d as real, q, r as real / d as real);
  }

  lemma QuotientParts(x: real, d: real, q: real, r: real)
    requires 0.0 < d && x == q * d + r && 0.0 <= r < d
    ensures x / d == q + r / d
    ensures 0.0 <= r / d < 1.0 && (r / d == 0.0 <==> r == 0.0)
  {
    var f := r / d;
    Fraction(f, d, r);
    assert (q + f) * d == x;
  }

  lemma Fraction(f: real, d: real, r: real)
    requires 0.0 < d && f * d == r && 0.0 <= r < d
    ensures 0.0 <= f < 1.0 && (f == 0.0 <==> r == 0.0)
  {}

  lemma CeilBetween(v: real, q: nat, f: real)
    requires v == q as real + f && 0.0 <= f < 1.0
    ensures Ceil(v) == if f == 0.0 then q else q + 1
  {
    assert v.Floor == q;
  }

  /** The code decides as the standard does wherever it counts the payload as the standard does. */
  lemma DecisionIsStandard(mcs: nat, dcm: bool, ruWidth: nat, a: nat, nSym: nat)
    requires LegalRate(mcs, dcm, ruWidth) && 1 <= a <= 4 && 1 <= nSym
    requires a != 4 || ruWidth == 1 || (ruWidth == 0 && !dcm)
    ensures ExtraSymCheck(mcs, NDbpsShort(mcs, dcm, ruWidth), NDbps(mcs, dcm, ruWidth), a, nSym, dcm) <==>
            StdDecision(mcs, dcm, ruWidth, a, nSym)
  {
    var rn, rd := RateNum(mcs, dcm), RateDen(mcs, dcm);
    var dbps, short := NDbps(mcs, dcm, ruWidth), NDbpsShort(mcs, dcm, ruWidth);
    NpldStandardIff(mcs, dcm, ruWidth, a, nSym);
    PlanIsStandard(mcs, dcm, Npld(short, dbps, a, nSym), Navbits(short, dbps, a, nSym, rn, rd));
    ExtraTestMatches(PlanFor(mcs, short, dbps, a, nSym, dcm), rn, rd);
  }

  lemma PlansOfFive()
    ensures StdNpld(30, 117, 4, 5) == 585 && Npld(30, 117, 4, 5) == 588 && Navbits(30, 117, 4, 5, 1, 2) == 1170
    ensures PlanOf(0, 588, 1170, 1, 2) == Plan(1, 1296, 648, 60, 66)
    ensures PlanOf(0, 585, 1170, 1, 2) == Plan(1, 1296, 648, 63, 63)
  {}

  /** Elsewhere it need not: on 242 tones with MCS 0, five symbols with a full last one, as a packet
    * of 68 bytes gives, the code asks for an extra segment and the standard does not. */
  lemma DecisionDiffers()
    ensures ExtraSymCheck(0, NDbpsShort(0, false, 3), NDbps(0, false, 3), 4, 5, false)
    ensures !StdDecision(0, false, 3, 4, 5)
  {
    PlansOfFive();
    PlanIsStandard(0, false, 585, 1170);
    ExtraTestMatches(Plan(1, 1296, 648, 63, 63), 1, 2);
  }

  const U32 := 0x1_0000_0000

  /** No product the code forms in 32 bits wraps, up to the largest packet. */
  lemma ProductsFit32Bits(mcs: nat, dcm: bool, npld: nat, navbits: nat)
    requires LegalRate(mcs, dcm, 0) && 0 < npld <= 600_000
    requires FitsClasses(npld, navbits, RateNum(mcs, dcm), RateDen(mcs, dcm))
    ensures var rn, rd := RateNum(mcs, dcm), RateDen(mcs, dcm);
            var pl := PlanOf(mcs, npld, navbits, rn, rd);
            && (navbits <= 2592 ==> RD_LCM * navbits * rd < U32
                                    && RD_LCM * npld * rd + 2916 * RD_LCM * (rd - rn) < U32)
            && pl.npunct * 10 * rd < U32 && 12 * pl.npunct * rn < U32
            && pl.nshrt * 10 * (rd - rn) < U32 && pl.ncw * pl.lldpc * 3 * (rd - rn) < U32
  {
    var rn, rd := RateNum(mcs, dcm), RateDen(mcs, dcm);
    RateIsLegal(mcs, dcm, 0);
    CodewordsHoldPayload(mcs, dcm, npld, navbits);
    var pl := PlanOf(mcs, npld, navbits, rn, rd);
    PayloadIsRate(mcs, dcm, pl.lldpc);
    CapacityBound(pl, npld, navbits, rn, rd);
    AccountedBounds(pl.ncw, pl.lldpc, pl.payload, npld, navbits);
    ProductBounds(pl.npunct, pl.nshrt, pl.ncw * pl.lldpc, rn, rd);
    TimesThree(pl, rd - rn);
    if navbits <= 2592 {
      ComparisonBounds(npld, navbits, rn, rd);
    }
  }

  /** Neither shortening nor puncturing exceeds the codeword bits. */
  lemma AccountedBounds(ncw: nat, lldpc: nat, payload: nat, npld: nat, navbits: nat)
    requires payload <= lldpc
    ensures var pl := Accounted(ncw, lldpc, payload, npld, navbits);
            pl.nshrt <= ncw * lldpc && pl.npunct <= ncw * lldpc
  {
    MulLe(payload, lldpc, ncw);
  }

  lemma TimesThree(pl: Plan, k: nat)
    ensures pl.ncw * pl.lldpc * 3 * k == (pl.ncw * pl.lldpc) * 3 * k
  {}

  lemma ComparisonBounds(npld: nat, navbits: nat, rn: nat, rd: nat)
    requires IsRate(rn, rd) && navbits <= 2592 && npld * rd <= 2592 * rn
    ensures RD_LCM * navbits * rd < U32 && RD_LCM * npld * rd + 2916 * RD_LCM * (rd - rn) < U32
  {
    if rn == 1 { } else if rn == 2 { } else if rn == 3 { } else { }
  }

  lemma ProductBounds(npunct: nat, nshrt: nat, c: nat, rn: nat, rd: nat)
    requires npunct <= 1_300_000 && nshrt <= 1_300_000 && c <= 1_300_000 && IsRate(rn, rd)
    ensures npunct * 10 * rd < U32 && 12 * npunct * rn < U32
    ensures nshrt * 10 * (rd - rn) < U32 && c * 3 * (rd - rn) < U32
  {
    if rn == 1 { } else if rn == 2 { } else if rn == 3 { } else { }
  }

  lemma CapacityBound(pl: Plan, npld: nat, navbits: nat, rn: nat, rd: nat)
    requires IsRate(rn, rd) && pl.lldpc in {648, 1296, 1944} && pl.payload * rd == pl.lldpc * rn
    requires npld <= 600_000 && (navbits <= 2592 ==> pl.ncw <= 2)
    requires navbits > 2592 ==> pl.lldpc == 1944 && (pl.ncw - 1) * pl.payload < npld
    ensures pl.ncw * pl.lldpc <= 1_300_000
  {
    if navbits > 2592 && pl.ncw >= 1 {
      assert pl.payload >= 972;
      MulLe(972, pl.payload, pl.ncw - 1);
    }
  }
}
