/** Where the extra-segment decision of apps/transmit.c is the one of section 27.3.12.5.2 of
  * IEEE Std 802.11ax-2021, although the code counts four short segments for a full symbol. */
module LdpcDecision {
  import opened Arith
  import opened HeTables
  import opened Ldpc

  /** The decision on integers, for a payload count. */
  predicate DecidesOn(mcs: nat, dcm: bool, ruWidth: nat, npld: nat, nSym: nat)
    requires LegalRate(mcs, dcm, ruWidth) && 1 <= nSym
  {
    RateIsLegal(mcs, dcm, ruWidth);
    var rn, rd := RateNum(mcs, dcm), RateDen(mcs, dcm);
    var dbps, short := NDbps(mcs, dcm, ruWidth), NDbpsShort(mcs, dcm, ruWidth);
    NeedsExtra(PlanOf(mcs, npld, Navbits(short, dbps, 4, nSym, rn, rd), rn, rd), rn, rd)
  }

  /** Code and standard run the same tests on two payload counts. */
  lemma BothDecisions(mcs: nat, dcm: bool, ruWidth: nat, nSym: nat)
    requires LegalRate(mcs, dcm, ruWidth) && 1 <= nSym
    ensures var dbps, short := NDbps(mcs, dcm, ruWidth), NDbpsShort(mcs, dcm, ruWidth);
            && (ExtraSymCheck(mcs, short, dbps, 4, nSym, dcm)
                <==> DecidesOn(mcs, dcm, ruWidth, Npld(short, dbps, 4, nSym), nSym))
            && (StdDecision(mcs, dcm, ruWidth, 4, nSym)
                <==> DecidesOn(mcs, dcm, ruWidth, StdNpld(short, dbps, 4, nSym), nSym))
  {
    var rn, rd := RateNum(mcs, dcm), RateDen(mcs, dcm);
    var dbps, short := NDbps(mcs, dcm, ruWidth), NDbpsShort(mcs, dcm, ruWidth);
    var npld, nav := StdNpld(short, dbps, 4, nSym), Navbits(short, dbps, 4, nSym, rn, rd);
    PlanIsStandard(mcs, dcm, npld, nav);
    ExtraTestMatches(PlanOf(mcs, npld, nav, rn, rd), rn, rd);
  }

  /** The tests for codewords of `c` bits in all, of which rn/rd carry payload. */
  predicate Tests(rn: int, rd: int, c: int, npld: int, navbits: int)
    requires 0 < rd
  {
    var payload := c * rn / rd;
    var s := if payload <= npld then 0 else payload - npld;
    var p := if c <= navbits + s then 0 else c - navbits - s;
    (p * 10 * rd > c && s * 10 < 12 * p * rn) || p * 10 * rd > 3 * c
  }

  function Capacity(rn: int, rd: int, npld: int, navbits: int): int
    requires 0 < rn < rd <= 6
  {
    if navbits <= 648 then if rd * navbits >= rd * npld + 912 then 1296 else 648
    else if navbits <= 1296 then if rd * navbits >= rd * npld + 1464 then 1944 else 1296
    else if navbits <= 1944 then 1944
    else if navbits <= 2592 then if rd * navbits >= rd * npld + 2916 then 3888 else 2592
    else 1944 * Count(1944 * rn / rd, npld)
  }

  /** The number of codewords of `full` payload bits that a payload takes. */
  function Count(full: int, npld: int): int
    requires 0 < full
  {
    (npld + full - 1) / full
  }

  lemma CountIsCeil(full: nat, npld: nat)
    requires 0 < full
    ensures npld / full + (if npld % full != 0 then 1 else 0) == Count(full, npld)
  {
    var q, r := npld / full, npld % full;
    assert npld == q * full + r;
    if r == 0 {
      DivUnique(npld + full - 1, full, q);
    } else {
      assert (q + 1) * full == q * full + full;
      DivUnique(npld + full - 1, full, q + 1);
    }
  }

  lemma CapacityOfPlan(npld: nat, navbits: nat, rn: nat, rd: nat)
    requires IsRate(rn, rd)
    ensures 0 < 1944 * rn / rd
    ensures Codewords(npld, navbits, rn, rd) * CodewordLength(npld, navbits, rn, rd) == Capacity(rn, rd, npld, navbits)
  {
    FullIsReal(rn, rd);
    if navbits <= 2592 {
      CapacityInClass(npld, navbits, rn, rd);
    } else {
      CountIsCeil(1944 * rn / rd, npld);
    }
  }

  lemma CapacityInClass(npld: nat, navbits: nat, rn: nat, rd: nat)
    requires IsRate(rn, rd) && navbits <= 2592
    ensures Codewords(npld, navbits, rn, rd) * CodewordLength(npld, navbits, rn, rd) == Capacity(rn, rd, npld, navbits)
  {
    if rn == 1 { } else if rn == 2 { } else if rn == 3 { } else { }
  }

  /** The decision as a test on two numbers. */
  lemma DecisionTests(mcs: nat, dcm: bool, npld: nat, navbits: nat)
    requires LegalRate(mcs, dcm, 0)
    ensures var rn, rd := RateNum(mcs, dcm), RateDen(mcs, dcm);
            IsRate(rn, rd) && (NeedsExtra(PlanOf(mcs, npld, navbits, rn, rd), rn, rd)
                               <==> Tests(rn, rd, Capacity(rn, rd, npld, navbits), npld, navbits))
  {
    var rn, rd := RateNum(mcs, dcm), RateDen(mcs, dcm);
    RateIsLegal(mcs, dcm, 0);
    var pl := PlanOf(mcs, npld, navbits, rn, rd);
    CapacityOfPlan(npld, navbits, rn, rd);
    PayloadIsRate(mcs, dcm, pl.lldpc);
    PayloadOfAll(pl.ncw, pl.lldpc, pl.payload, rn, rd);
    RedundancyIsOneShare(rn, rd);
    IntegerTest(pl, rn, rd);
    AccountedTests(pl.ncw, pl.lldpc, pl.payload, npld, navbits, rn, rd);
  }

  lemma PayloadOfAll(ncw: nat, lldpc: nat, payload: nat, rn: nat, rd: nat)
    requires 0 < rd && payload * rd == lldpc * rn
    ensures ncw * lldpc * rn / rd == ncw * payload
  {
    Assoc(ncw, lldpc, rn);
    Assoc(ncw, payload, rd);
    DivUnique(ncw * lldpc * rn, rd, ncw * payload);
  }

  lemma AccountedTests(ncw: nat, lldpc: nat, payload: nat, npld: nat, navbits: nat, rn: nat, rd: nat)
    requires 0 < rd && ncw * lldpc * rn / rd == ncw * payload
    ensures var pl, c := Accounted(ncw, lldpc, payload, npld, navbits), ncw * lldpc;
            Tests(rn, rd, c, npld, navbits) <==>
            (pl.npunct * 10 * rd > c && pl.nshrt * 10 < 12 * pl.npunct * rn) || pl.npunct * 10 * rd > 3 * c
  {}

  /** The decision at rate 1/2 does not depend on the surplus of the payload count. */
  predicate Harmless(npld: int, surplus: int) {
    Tests(1, 2, Capacity(1, 2, npld + surplus, 2 * npld), npld + surplus, 2 * npld)
    <==> Tests(1, 2, Capacity(1, 2, npld, 2 * npld), npld, 2 * npld)
  }

  /** With a small surplus the tests at rate 1/2, on codewords with `half` payload bits, come down to
    * one threshold. */
  lemma Threshold(half: int, std: int, npld: int)
    requires half >= 324 && -3 <= npld - std <= 12
    ensures Tests(1, 2, 2 * half, npld, 2 * std) <==> 9 * half + 10 * npld > 20 * std
  {
    assert 2 * half * 1 / 2 == half;
    if npld <= half {
      var s, p := half - npld, half + npld - 2 * std;
      assert p == s + 2 * (npld - std);
    }
  }

  /** Symbol bits and surplus of the entries at rate 1/2 whose surplus is harmless. */
  predicate Narrow(dbps: int, surplus: int) {
    || (dbps == 51 && surplus == -3) || (dbps == 25 && surplus == -1)
    || (dbps == 58 && surplus == 2) || (dbps == 468 && surplus == 12)
  }

  /** Up to 2592 bits on air the capacity is the end of the class. */
  function ClassEnd(navbits: int): int {
    if navbits <= 648 then 648 else if navbits <= 1296 then 1296 else if navbits <= 1944 then 1944 else 2592
  }

  lemma SmallClass(npld: int, surplus: int)
    requires 2 * npld <= 2592 && -3 <= surplus <= 12
    ensures Capacity(1, 2, npld + surplus, 2 * npld) == ClassEnd(2 * npld) == Capacity(1, 2, npld, 2 * npld)
  {}

  predicate Takes(npld: int, k: int) { 972 * (k - 1) < npld <= 972 * k }

  lemma SomeCount(npld: int) returns (k: int)
    requires 972 < npld
    ensures 2 <= k && Takes(npld, k)
  {
    k := Count(972, npld);
  }

  lemma OpenClass(npld: int, navbits: int, k: int)
    requires navbits > 2592 && Takes(npld, k)
    ensures Capacity(1, 2, npld, navbits) == 1944 * k
  {}

  /** No multiple of the symbol falls between the thresholds of the two counts: in the small classes, */
  lemma SmallGap(dbps: int, surplus: int, n: int)
    requires Narrow(dbps, surplus) && 1 <= n && 2 * (dbps * n) <= 2592
    ensures var c := ClassEnd(2 * (dbps * n));
            9 * (c / 2) + 10 * (dbps * n + surplus) > 20 * (dbps * n) <==> 9 * (c / 2) + 10 * (dbps * n) > 20 * (dbps * n)
  {
    if dbps == 51 { } else if dbps == 25 { } else if dbps == 58 { } else { }
  }

  predicate SameForCounts(std: int, npld: int, k: int, j: int) {
    4374 * j + 5 * npld > 10 * std <==> 4374 * k + 5 * std > 10 * std
  }

  /** on up to four, */
  lemma GapToFour(dbps: int, surplus: int, n: int, k: int, j: int)
    requires Narrow(dbps, surplus) && 2 <= k <= 4 && Takes(dbps * n, k) && Takes(dbps * n + surplus, j)
    ensures SameForCounts(dbps * n, dbps * n + surplus, k, j)
  {
    assert k == 2 || k == 3 || k == 4;
    if dbps == 51 { } else if dbps == 25 { } else if dbps == 58 { } else { }
  }

  /** up to seven, */
  lemma GapToSeven(dbps: int, surplus: int, n: int, k: int, j: int)
    requires Narrow(dbps, surplus) && 5 <= k <= 7 && Takes(dbps * n, k) && Takes(dbps * n + surplus, j)
    ensures SameForCounts(dbps * n, dbps * n + surplus, k, j)
  {
    assert k == 5 || k == 6 || k == 7;
    if dbps == 51 { } else if dbps == 25 { } else if dbps == 58 { } else { }
  }

  /** and up to eleven codewords. */
  lemma GapToEleven(dbps: int, surplus: int, n: int, k: int, j: int)
    requires Narrow(dbps, surplus) && 8 <= k <= 11 && Takes(dbps * n, k) && Takes(dbps * n + surplus, j)
    ensures SameForCounts(dbps * n, dbps * n + surplus, k, j)
  {
    assert k == 8 || k == 9 || k == 10 || k == 11;
    if dbps == 51 { } else if dbps == 25 { } else if dbps == 58 { } else { }
  }

  /** Beyond that neither count reaches its threshold. */
  lemma NoGapBeyond(std: int, npld: int, k: int, j: int)
    requires 12 <= k && Takes(std, k) && Takes(npld, j) && -3 <= npld - std <= 12
    ensures SameForCounts(std, npld, k, j)
  {}

  lemma OpenGap(dbps: int, surplus: int, n: int, k: int, j: int)
    requires Narrow(dbps, surplus) && 2 <= k && Takes(dbps * n, k) && Takes(dbps * n + surplus, j)
    ensures SameForCounts(dbps * n, dbps * n + surplus, k, j)
  {
    if k <= 4 {
      GapToFour(dbps, surplus, n, k, j);
    } else if k <= 7 {
      GapToSeven(dbps, surplus, n, k, j);
    } else if k <= 11 {
      GapToEleven(dbps, surplus, n, k, j);
    } else {
      NoGapBeyond(dbps * n, dbps * n + surplus, k, j);
    }
  }

  lemma SameSide(std: int, surplus: int, h: int, g: int)
    requires 2 * h == Capacity(1, 2, std, 2 * std) && 2 * g == Capacity(1, 2, std + surplus, 2 * std)
    requires h >= 324 && g >= 324 && -3 <= surplus <= 12
    requires 9 * g + 10 * (std + surplus) > 20 * std <==> 9 * h + 10 * std > 20 * std
    ensures Harmless(std, surplus)
  {
    Threshold(h, std, std);
    Threshold(g, std, std + surplus);
  }

  lemma SmallIsHarmless(dbps: int, surplus: int, n: int)
    requires Narrow(dbps, surplus) && 1 <= n && 2 * (dbps * n) <= 2592
    ensures Harmless(dbps * n, surplus)
  {
    var std := dbps * n;
    SmallGap(dbps, surplus, n);
    SmallClass(std, surplus);
    SameSide(std, surplus, ClassEnd(2 * std) / 2, ClassEnd(2 * std) / 2);
  }

  lemma OpenSides(std: int, surplus: int, k: int, j: int)
    requires 2 * std > 2592 && -3 <= surplus <= 12 && 2 <= k && 2 <= j && Takes(std, k) && Takes(std + surplus, j)
    requires SameForCounts(std, std + surplus, k, j)
    ensures Harmless(std, surplus)
  {
    OpenClass(std, 2 * std, k);
    OpenClass(std + surplus, 2 * std, j);
    SameSide(std, surplus, 972 * k, 972 * j);
  }

  lemma OpenIsHarmless(dbps: int, surplus: int, n: int)
    requires Narrow(dbps, surplus) && 1 <= n && 2 * (dbps * n) > 2592
    ensures Harmless(dbps * n, surplus)
  {
    var k := SomeCount(dbps * n);
    var j := SomeCount(dbps * n + surplus);
    OpenGap(dbps, surplus, n, k, j);
    OpenSides(dbps * n, surplus, k, j);
  }

  lemma NarrowIsHarmless(dbps: nat, surplus: int, n: nat)
    requires Narrow(dbps, surplus) && 1 <= n
    ensures Harmless(dbps * n, surplus)
  {
    if 2 * (dbps * n) <= 2592 {
      SmallIsHarmless(dbps, surplus, n);
    } else {
      OpenIsHarmless(dbps, surplus, n);
    }
  }

  /** Entries with a surplus that no symbol count lets change the decision. */
  predicate Spared(mcs: nat, dcm: bool, ruWidth: nat) {
    || (ruWidth == 2 && (mcs == 0 || (dcm && mcs == 1)))
    || (ruWidth == 3 && mcs == if dcm then 0 else 3)
  }

  lemma SparedEntries(mcs: nat, dcm: bool, ruWidth: nat)
    requires LegalRate(mcs, dcm, ruWidth) && Spared(mcs, dcm, ruWidth)
    ensures RateNum(mcs, dcm) == 1 && RateDen(mcs, dcm) == 2
    ensures Narrow(NDbps(mcs, dcm, ruWidth), 4 * NDbpsShort(mcs, dcm, ruWidth) - NDbps(mcs, dcm, ruWidth))
  {}

  lemma FullSymbols(short: nat, dbps: nat, n: nat)
    requires 1 <= n
    ensures StdNpld(short, dbps, 4, n) == dbps * n && Npld(short, dbps, 4, n) == dbps * n + (4 * short - dbps)
    ensures Navbits(short, dbps, 4, n, 1, 2) == 2 * (dbps * n)
  {
    assert (n - 1) * dbps + dbps == dbps * n;
    assert (n - 1) * (2 * dbps) + 2 * dbps == 2 * (dbps * n);
  }

  /** The decisions on the two payload counts differ. */
  predicate Differs(mcs: nat, dcm: bool, ruWidth: nat, n: nat)
    requires LegalRate(mcs, dcm, ruWidth) && 1 <= n
  {
    var dbps, short := NDbps(mcs, dcm, ruWidth), NDbpsShort(mcs, dcm, ruWidth);
    DecidesOn(mcs, dcm, ruWidth, Npld(short, dbps, 4, n), n)
    != DecidesOn(mcs, dcm, ruWidth, StdNpld(short, dbps, 4, n), n)
  }

  lemma SparedNeverDiffers(mcs: nat, dcm: bool, ruWidth: nat, n: nat)
    requires LegalRate(mcs, dcm, ruWidth) && Spared(mcs, dcm, ruWidth) && 1 <= n
    ensures !Differs(mcs, dcm, ruWidth, n)
  {
    var dbps, short := NDbps(mcs, dcm, ruWidth), NDbpsShort(mcs, dcm, ruWidth);
    SparedEntries(mcs, dcm, ruWidth);
    FullSymbols(short, dbps, n);
    DecisionTests(mcs, dcm, Npld(short, dbps, 4, n), 2 * (dbps * n));
    DecisionTests(mcs, dcm, StdNpld(short, dbps, 4, n), 2 * (dbps * n));
    NarrowIsHarmless(dbps, 4 * short - dbps, n);
  }

  /** For every other entry with a surplus, a symbol count at which the decisions differ. */
  function Symbols(mcs: nat, dcm: bool, ruWidth: nat): (n: nat)
    requires LegalRate(mcs, dcm, ruWidth)
  {
    if dcm then
      if ruWidth == 0 then [97, 24, 0, 10, 9][mcs] else if ruWidth == 2 then [0, 0, 0, 60, 5][mcs] else 5
    else if ruWidth == 2 then [0, 60, 5, 30, 1, 20, 5, 5][mcs]
    else if mcs == 4 then 15 else 5
  }

  /** Two payload counts on which the tests disagree, for `n` symbols of a table entry. */
  lemma SplitDiffers(mcs: nat, dcm: bool, ruWidth: nat, n: nat, npld: nat, std: nat, navbits: nat, rn: nat, rd: nat,
                     c: int, d: int)
    requires LegalRate(mcs, dcm, ruWidth) && 1 <= n && rn == RateNum(mcs, dcm) && rd == RateDen(mcs, dcm)
    requires var dbps, short := NDbps(mcs, dcm, ruWidth), NDbpsShort(mcs, dcm, ruWidth);
             IsRate(rn, rd) && Npld(short, dbps, 4, n) == npld && StdNpld(short, dbps, 4, n) == std
             && Navbits(short, dbps, 4, n, rn, rd) == navbits
    requires Capacity(rn, rd, npld, navbits) == c && Capacity(rn, rd, std, navbits) == d
    requires Tests(rn, rd, c, npld, navbits) != Tests(rn, rd, d, std, navbits)
    ensures Differs(mcs, dcm, ruWidth, n)
  {
    DecisionTests(mcs, dcm, npld, navbits);
    DecisionTests(mcs, dcm, std, navbits);
  }

  lemma Differs106Mcs1()
    ensures Differs(1, false, 2, 60)
  {
    SplitDiffers(1, false, 2, 60, 6114, 6120, 12240, 1, 2, 13608, 13608);
  }

  lemma Differs106Mcs2()
    ensures Differs(2, false, 2, 5)
  {
    SplitDiffers(2, false, 2, 5, 756, 765, 1020, 3, 4, 1296, 1296);
  }

  lemma Differs106Mcs3()
    ensures Differs(3, false, 2, 30)
  {
    SplitDiffers(3, false, 2, 30, 6108, 6120, 12240, 1, 2, 13608, 13608);
  }

  lemma Differs106Mcs4()
    ensures Differs(4, false, 2, 1)
  {
    SplitDiffers(4, false, 2, 1, 288, 306, 408, 3, 4, 648, 648);
  }

  lemma Differs106Mcs5()
    ensures Differs(5, false, 2, 20)
  {
    SplitDiffers(5, false, 2, 20, 8136, 8160, 12240, 2, 3, 13608, 13608);
  }

  lemma Differs106Mcs6()
    ensures Differs(6, false, 2, 5)
  {
    SplitDiffers(6, false, 2, 5, 2268, 2295, 3060, 3, 4, 3888, 3888);
  }

  lemma Differs106Mcs7()
    ensures Differs(7, false, 2, 5)
  {
    SplitDiffers(7, false, 2, 5, 2520, 2550, 3060, 5, 6, 3888, 3888);
  }

  lemma Differs106(mcs: nat)
    requires mcs in {1, 2, 3, 4, 5, 6, 7}
    ensures Differs(mcs, false, 2, Symbols(mcs, false, 2))
  {
    match mcs
    case 1 => Differs106Mcs1();
    case 2 => Differs106Mcs2();
    case 3 => Differs106Mcs3();
    case 4 => Differs106Mcs4();
    case 5 => Differs106Mcs5();
    case 6 => Differs106Mcs6();
    case _ => Differs106Mcs7();
  }

  lemma Differs242Mcs0()
    ensures Differs(0, false, 3, 5)
  {
    SplitDiffers(0, false, 3, 5, 588, 585, 1170, 1, 2, 1296, 1296);
  }

  lemma Differs242Mcs1()
    ensures Differs(1, false, 3, 5)
  {
    SplitDiffers(1, false, 3, 5, 1176, 1170, 2340, 1, 2, 2592, 2592);
  }

  lemma Differs242Mcs2()
    ensures Differs(2, false, 3, 5)
  {
    SplitDiffers(2, false, 3, 5, 1764, 1755, 2340, 3, 4, 2592, 2592);
  }

  lemma Differs242Mcs4()
    ensures Differs(4, false, 3, 15)
  {
    SplitDiffers(4, false, 3, 15, 10548, 10530, 14040, 3, 4, 15552, 15552);
  }

  lemma Differs242Mcs5()
    ensures Differs(5, false, 3, 5)
  {
    SplitDiffers(5, false, 3, 5, 4704, 4680, 7020, 2, 3, 7776, 7776);
  }

  lemma Differs242Mcs6()
    ensures Differs(6, false, 3, 5)
  {
    SplitDiffers(6, false, 3, 5, 5292, 5265, 7020, 3, 4, 7776, 7776);
  }

  lemma Differs242Mcs7()
    ensures Differs(7, false, 3, 5)
  {
    SplitDiffers(7, false, 3, 5, 5880, 5850, 7020, 5, 6, 7776, 7776);
  }

  lemma Differs242(mcs: nat)
    requires mcs in {0, 1, 2, 4, 5, 6, 7}
    ensures Differs(mcs, false, 3, Symbols(mcs, false, 3))
  {
    match mcs
    case 0 => Differs242Mcs0();
    case 1 => Differs242Mcs1();
    case 2 => Differs242Mcs2();
    case 4 => Differs242Mcs4();
    case 5 => Differs242Mcs5();
    case 6 => Differs242Mcs6();
    case _ => Differs242Mcs7();
  }

  lemma Differs26DcmMcs0()
    ensures Differs(0, true, 0, 97)
  {
    SplitDiffers(0, true, 0, 97, 580, 582, 1164, 1, 2, 1296, 1296);
  }

  lemma Differs26DcmMcs1()
    ensures Differs(1, true, 0, 24)
  {
    SplitDiffers(1, true, 0, 24, 284, 288, 576, 1, 2, 648, 648);
  }

  lemma Differs26DcmMcs3()
    ensures Differs(3, true, 0, 10)
  {
    SplitDiffers(3, true, 0, 10, 232, 240, 480, 1, 2, 648, 648);
  }

  lemma Differs26DcmMcs4()
    ensures Differs(4, true, 0, 9)
  {
    SplitDiffers(4, true, 0, 9, 312, 324, 432, 3, 4, 648, 648);
  }

  lemma Differs26Dcm(mcs: nat)
    requires mcs in {0, 1, 3, 4}
    ensures Differs(mcs, true, 0, Symbols(mcs, true, 0))
  {
    match mcs
    case 0 => Differs26DcmMcs0();
    case 1 => Differs26DcmMcs1();
    case 3 => Differs26DcmMcs3();
    case _ => Differs26DcmMcs4();
  }

  lemma Differs106DcmMcs3()
    ensures Differs(3, true, 2, 60)
  {
    SplitDiffers(3, true, 2, 60, 6114, 6120, 12240, 1, 2, 13608, 13608);
  }

  lemma Differs106DcmMcs4()
    ensures Differs(4, true, 2, 5)
  {
    SplitDiffers(4, true, 2, 5, 756, 765, 1020, 3, 4, 1296, 1296);
  }

  lemma Differs106Dcm(mcs: nat)
    requires mcs in {3, 4}
    ensures Differs(mcs, true, 2, Symbols(mcs, true, 2))
  {
    match mcs
    case 3 => Differs106DcmMcs3();
    case _ => Differs106DcmMcs4();
  }

  lemma Differs242DcmMcs1()
    ensures Differs(1, true, 3, 5)
  {
    SplitDiffers(1, true, 3, 5, 588, 585, 1170, 1, 2, 1296, 1296);
  }

  lemma Differs242DcmMcs3()
    ensures Differs(3, true, 3, 5)
  {
    SplitDiffers(3, true, 3, 5, 1176, 1170, 2340, 1, 2, 2592, 2592);
  }

  lemma Differs242DcmMcs4()
    ensures Differs(4, true, 3, 5)
  {
    SplitDiffers(4, true, 3, 5, 1764, 1755, 2340, 3, 4, 2592, 2592);
  }

  lemma Differs242Dcm(mcs: nat)
    requires mcs in {1, 3, 4}
    ensures Differs(mcs, true, 3, Symbols(mcs, true, 3))
  {
    match mcs
    case 1 => Differs242DcmMcs1();
    case 3 => Differs242DcmMcs3();
    case _ => Differs242DcmMcs4();
  }

  /** A surplus of four segments over a symbol that is not spared changes some decision. */
  lemma SurplusDiffers(mcs: nat, dcm: bool, ruWidth: nat)
    requires LegalRate(mcs, dcm, ruWidth) && !Spared(mcs, dcm, ruWidth)
    requires ruWidth != 1 && (ruWidth == 0 ==> dcm)
    ensures 1 <= Symbols(mcs, dcm, ruWidth) && Differs(mcs, dcm, ruWidth, Symbols(mcs, dcm, ruWidth))
  {
    if ruWidth == 0 {
      Differs26Dcm(mcs);
    } else if ruWidth == 2 {
      if dcm {
        Differs106Dcm(mcs);
      } else {
        Differs106(mcs);
      }
    } else if dcm {
      Differs242Dcm(mcs);
    } else {
      Differs242(mcs);
    }
  }

  /** Code and standard decide alike for this many symbols. */
  predicate Alike(mcs: nat, dcm: bool, ruWidth: nat, a: nat, nSym: nat)
    requires LegalRate(mcs, dcm, ruWidth) && 1 <= nSym
  {
    ExtraSymCheck(mcs, NDbpsShort(mcs, dcm, ruWidth), NDbps(mcs, dcm, ruWidth), a, nSym, dcm)
    <==> StdDecision(mcs, dcm, ruWidth, a, nSym)
  }

  /** The table entries for which the decision is the standard's on a full last symbol. */
  predicate DecidesWell(mcs: nat, dcm: bool, ruWidth: nat) {
    ruWidth == 1 || (ruWidth == 0 && !dcm) || Spared(mcs, dcm, ruWidth)
  }

  lemma AlikeIff(mcs: nat, dcm: bool, ruWidth: nat, n: nat)
    requires LegalRate(mcs, dcm, ruWidth) && 1 <= n
    ensures Alike(mcs, dcm, ruWidth, 4, n) <==> !Differs(mcs, dcm, ruWidth, n)
  {
    BothDecisions(mcs, dcm, ruWidth, n);
  }

  /** For every number of symbols the code decides as the standard does exactly when the last one is
    * not full, or its four segments make a symbol, or the entry is spared. */
  lemma DecisionIff(mcs: nat, dcm: bool, ruWidth: nat, a: nat)
    requires LegalRate(mcs, dcm, ruWidth) && 1 <= a <= 4
    ensures (forall n: nat :: 1 <= n ==> Alike(mcs, dcm, ruWidth, a, n)) <==> a != 4 || DecidesWell(mcs, dcm, ruWidth)
  {
    if a == 4 && !DecidesWell(mcs, dcm, ruWidth) {
      SurplusDiffers(mcs, dcm, ruWidth);
      AlikeIff(mcs, dcm, ruWidth, Symbols(mcs, dcm, ruWidth));
    } else {
      forall n: nat | 1 <= n
        ensures Alike(mcs, dcm, ruWidth, a, n)
      {
        if a == 4 && Spared(mcs, dcm, ruWidth) {
          SparedNeverDiffers(mcs, dcm, ruWidth, n);
          AlikeIff(mcs, dcm, ruWidth, n);
        } else {
          DecisionIsStandard(mcs, dcm, ruWidth, a, n);
        }
      }
    }
  }
}
