/** Symbol count, packet extension, TXTIME and L-SIG LENGTH of an 802.11ax PPDU, as computed by
  * apps/transmit.c, against sections 27.3.11.5, 27.3.12.2, 27.3.13 and 27.4.3 of
  * IEEE Std 802.11ax-2021. Times are in tenths of a microsecond unless named otherwise. */
module PpduTiming {
  import opened Arith
  import opened HeTables
  import Ldpc
  import LdpcDecision

  const T_RL_SIG := 40
  const T_HE_SIG_A := 80
  const T_HE_SIG_A_R := 160
  const T_HE_STF_T := 80
  const T_HE_STF_NT := 40
  const T_DFT_HE := 128
  const T_LEGACY_PREAMBLE := 200
  const T_HE_SIG_B := 40
  const SERVICE_AND_TAIL := 22

  function CeilDiv(x: nat, d: nat): nat
    requires 0 < d
  {
    x / d + (if x % d != 0 then 1 else 0)
  }

  lemma CeilDivLeast(x: nat, d: nat, n: nat)
    requires 0 < d
    ensures n * d >= x <==> n >= CeilDiv(x, d)
  {
    var q := x / d;
    assert x == q * d + x % d;
    if n <= q {
      MulLe(n, q, d);
    } else {
      MulLe(q + 1, n, d);
      assert (q + 1) * d == q * d + d;
    }
  }

  // ---------------------------------------------------------------- pre-FEC padding

  /** Symbols, and segments in use of the last one (1 to 4). */
  datatype Pad = Pad(nSym: nat, a: nat)

  predicate PadLe(x: Pad, y: Pad) {
    x.nSym < y.nSym || (x.nSym == y.nSym && x.a <= y.a)
  }

  function Next(x: Pad): Pad {
    if x.a == 4 then Pad(x.nSym + 1, 1) else Pad(x.nSym, x.a + 1)
  }

  function Bits(length: nat): nat { 8 * length + SERVICE_AND_TAIL }

  function Segments(dbps: nat, short: nat, a: nat): nat {
    if a == 4 then dbps else Ldpc.Mul(a, short)
  }

  /** Bits that fit: whole symbols, then `a` short segments or the whole last symbol. */
  function Room(dbps: nat, short: nat, pad: Pad): nat
    requires 1 <= pad.nSym
  {
    Ldpc.Mul(pad.nSym - 1, dbps) + Segments(dbps, short, pad.a)
  }

  /** Segments of the last symbol for the bits in excess of whole symbols. */
  function InitialA(short: nat, excess: nat): nat
    requires 0 < short
  {
    var segments := CeilDiv(excess, short);
    if excess == 0 || segments > 4 then 4 else segments
  }

  function InitialPad(dbps: nat, short: nat, bits: nat): Pad
    requires 0 < short && 0 < dbps
  {
    Pad(CeilDiv(bits, dbps), InitialA(short, bits % dbps))
  }

  lemma SegmentsLeast(dbps: nat, short: nat, excess: nat, a: nat)
    requires 0 < short && 3 * short < dbps && excess < dbps && 1 <= a <= 4
    ensures 1 <= InitialA(short, excess) <= 4
    ensures (if excess == 0 then dbps else excess) <= Segments(dbps, short, a) <==> InitialA(short, excess) <= a
  {
    CeilDivLeast(excess, short, a);
    if a < 4 {
      MulLe(a, 3, short);
    }
    if excess > 0 {
      CeilDivLeast(excess, short, 0);
    }
  }

  /** `k` whole symbols before the last one are too few, too many, or leave the excess. */
  lemma SymbolsBracket(dbps: nat, bits: nat, k: nat)
    requires 0 < dbps && 0 < bits
    ensures var n := CeilDiv(bits, dbps);
            && (k + 1 < n ==> Ldpc.Mul(k, dbps) + dbps < bits)
            && (k + 1 == n ==> bits == Ldpc.Mul(k, dbps) + (if bits % dbps == 0 then dbps else bits % dbps))
            && (k >= n ==> Ldpc.Mul(k, dbps) >= bits)
            && 1 <= n
  {
    var q := bits / dbps;
    assert bits == q * dbps + bits % dbps;
    CeilDivLeast(bits, dbps, k);
    CeilDivLeast(bits, dbps, k + 1);
    CeilDivLeast(bits, dbps, 0);
    assert (k + 1) * dbps == k * dbps + dbps;
  }

  /** The initial pad is the least one, in lexicographic order, with room for the bits. */
  lemma InitialPadLeast(dbps: nat, short: nat, bits: nat, pad: Pad)
    requires 0 < short && 3 * short < dbps && 0 < bits
    requires 1 <= pad.nSym && 1 <= pad.a <= 4
    ensures bits <= Room(dbps, short, pad) <==> PadLe(InitialPad(dbps, short, bits), pad)
    ensures 1 <= InitialPad(dbps, short, bits).nSym && 1 <= InitialPad(dbps, short, bits).a <= 4
  {
    SymbolsBracket(dbps, bits, pad.nSym - 1);
    SegmentsLeast(dbps, short, bits % dbps, pad.a);
    SegmentBounds(dbps, short, pad.a);
  }

  lemma SegmentBounds(dbps: nat, short: nat, a: nat)
    requires 0 < short && 3 * short < dbps && 1 <= a <= 4
    ensures 0 < Segments(dbps, short, a) <= dbps
  {
    MulLe(1, a, short);
    if a < 4 {
      MulLe(a, 3, short);
    }
  }

  /** Nothing lies between a pad and the next one. */
  lemma NextIsImmediate(x: Pad, y: Pad)
    requires 1 <= x.a <= 4 && 1 <= y.a <= 4 && PadLe(x, y) && x != y
    ensures PadLe(Next(x), y)
  {}

  // ---------------------------------------------------------------- from parameters to TXTIME

  /** get_nsym_he_sig_b */
  function SigBBits(users: nat, compressed: bool): nat {
    (if compressed then 0 else 18) + 21 * users + 10 * (users / 2 + users % 2)
  }

  function SigBSymbols(users: nat, compressed: bool, mcs: nat, dcm: bool): nat
    requires mcs < 8
  {
    CeilDiv(SigBBits(users, compressed), if dcm then SIGB_BITS[mcs] / 2 else SIGB_BITS[mcs])
  }

  /** The SIG-B symbols are the fewest that hold its bits. */
  lemma SigBLeast(users: nat, compressed: bool, mcs: nat, dcm: bool, n: nat)
    requires mcs < 8
    ensures n * (if dcm then SIGB_BITS[mcs] / 2 else SIGB_BITS[mcs]) >= SigBBits(users, compressed) <==>
            n >= SigBSymbols(users, compressed, mcs, dcm)
  {
    CeilDivLeast(SigBBits(users, compressed), if dcm then SIGB_BITS[mcs] / 2 else SIGB_BITS[mcs], n);
  }

  function LtfGi(p: Params): (nat, nat)
    requires Legal(p)
  {
    match p.ppdu
    case SU | ERSU => if p.dcm && p.stbc then (136, 8) else LTF_GI[p.giLtf]
    case TB => LTF_GI[p.giLtf + 4]
    case MU => LTF_GI[p.giLtf + 8]
  }

  function Preamble(p: Params): nat
    requires Legal(p)
  {
    var ltf := LtfGi(p).0;
    match p.ppdu
    case SU => T_RL_SIG + T_HE_SIG_A + T_HE_STF_NT + ltf
    case ERSU => T_RL_SIG + T_HE_SIG_A_R + T_HE_STF_NT + ltf
    case TB => T_RL_SIG + T_HE_SIG_A + T_HE_STF_T + (p.heLtfs + 1) * ltf
    case MU => T_RL_SIG + T_HE_SIG_A + T_HE_STF_NT + ltf
               + SigBSymbols(p.users, p.sigBCompressed, p.sigBMcs, p.sigBDcm) * T_HE_SIG_B
  }

  function TSym(p: Params): (t: nat)
    requires Legal(p)
    ensures 128 <= t <= 160
  {
    LtfGi(p).1 + T_DFT_HE
  }

  function Dbps(p: Params): nat
    requires Legal(p)
  {
    NDbps(p.mcs, p.dcm, p.ruWidth)
  }

  function Short(p: Params): nat
    requires Legal(p)
  {
    NDbpsShort(p.mcs, p.dcm, p.ruWidth)
  }

  function PadFor(p: Params, length: nat): (pad: Pad)
    requires Legal(p)
    ensures 1 <= pad.nSym && 1 <= pad.a <= 4
  {
    ThreeSegmentsFit(p.mcs, p.dcm, p.ruWidth);
    InitialPadLeast(Dbps(p), Short(p), Bits(length), Pad(1, 1));
    InitialPad(Dbps(p), Short(p), Bits(length))
  }

  predicate ExtraSegment(p: Params, length: nat)
    requires Legal(p)
  {
    var pad := PadFor(p, length);
    p.ldpc && Ldpc.ExtraSymCheck(p.mcs, Short(p), Dbps(p), pad.a, pad.nSym, p.dcm)
  }

  function FinalPad(p: Params, length: nat): (pad: Pad)
    requires Legal(p)
    ensures 1 <= pad.nSym && 1 <= pad.a <= 4
  {
    if ExtraSegment(p, length) then Next(PadFor(p, length)) else PadFor(p, length)
  }

  /** Packet extension in microseconds: the 32-bit difference, taken as 0 when its sign bit is set. */
  function Pe(nominalPe: nat, a: nat): nat
    requires a <= 4
  {
    var d := (nominalPe - 4 * (4 - a)) % Ldpc.U32;
    if d >= 0x8000_0000 then 0 else d
  }

  lemma PeIsClamped(nominalPe: nat, a: nat)
    requires nominalPe in {0, 8, 16} && 1 <= a <= 4
    ensures var pe := Pe(nominalPe, a);
            pe == (if nominalPe >= 4 * (4 - a) then nominalPe - 4 * (4 - a) else 0) && pe % 4 == 0 && pe <= 16
  {
    if nominalPe < 4 * (4 - a) {
      assert (nominalPe - 4 * (4 - a)) % Ldpc.U32 == nominalPe - 4 * (4 - a) + Ldpc.U32;
    }
  }

  /** Time after the legacy preamble. */
  function Airtime(p: Params, pad: Pad): nat
    requires Legal(p) && pad.a <= 4
  {
    Preamble(p) + Ldpc.Mul(TSym(p), pad.nSym) + 10 * Pe(p.nominalPe, pad.a)
  }

  function TxTime(p: Params, length: nat): nat
    requires Legal(p)
  {
    T_LEGACY_PREAMBLE + Airtime(p, FinalPad(p, length))
  }

  /** The code's test, with the remainder 0 replaced by 40. */
  predicate Disambiguity(p: Params, length: nat)
    requires Legal(p)
  {
    var r := (TxTime(p, length) - T_LEGACY_PREAMBLE) % 40;
    10 * Pe(p.nominalPe, FinalPad(p, length).a) + 40 - (if r == 0 then 40 else r) >= TSym(p)
  }

  /** m of section 27.3.11.5: 1 for ER SU and MU, 2 for SU and TB. */
  function M(p: Params): nat {
    if p.ppdu.ERSU? || p.ppdu.MU? then 1 else 2
  }

  /** L-SIG LENGTH before it is stored in 16 bits. */
  function ExactLength(p: Params, length: nat): int
    requires Legal(p)
  {
    3 * CeilDiv(TxTime(p, length) - T_LEGACY_PREAMBLE, 40) - 3 - M(p)
  }

  /** heppdu_spoof_length_calculation: the 16-bit result. */
  function LSigLength(p: Params, length: nat): nat
    requires Legal(p)
  {
    ExactLength(p, length) % 0x1_0000
  }

  // ---------------------------------------------------------------- what the preamble amounts to

  /** Size of an HE-LTF in units of 3.2 us, and guard interval: the GI and LTF size that the tool's
    * own description gives each value of the field. TB has no value 3. */
  function LtfSize(p: Params): (nat, nat)
    requires p.giLtf < 4
  {
    match p.ppdu
    case SU | ERSU => [(1, 8), (2, 8), (2, 16), if p.dcm && p.stbc then (4, 8) else (4, 32)][p.giLtf]
    case TB => [(1, 16), (2, 16), (4, 32), (0, 0)][p.giLtf]
    case MU => [(4, 8), (2, 8), (2, 16), (4, 32)][p.giLtf]
  }

  /** The code times the HE-LTFs as described, exactly unless DCM and STBC come with another value
    * than 3 on an SU or ER SU PPDU. */
  lemma LtfGiIff(p: Params)
    requires Legal(p)
    ensures var (size, gi) := LtfSize(p);
            LtfGi(p) == (32 * size + gi, gi) <==> !((p.ppdu.SU? || p.ppdu.ERSU?) && p.dcm && p.stbc && p.giLtf != 3)
  {
    assert p.giLtf == 0 || p.giLtf == 1 || p.giLtf == 2 || p.giLtf == 3;
  }

  /** Bits of the user specific field: blocks of two users, or one for the last, each with its own
    * CRC and tail. */
  function UserBlocks(users: nat): nat {
    if users == 0 then 0 else if users == 1 then 21 + 4 + 6 else 2 * 21 + 4 + 6 + UserBlocks(users - 2)
  }

  /** SIG-B: RU allocation, CRC and tail unless compressed, then the user blocks. */
  lemma {:induction false} SigBFieldWidths(users: nat, compressed: bool)
    ensures SigBBits(users, compressed) == (if compressed then 0 else 8 + 4 + 6) + UserBlocks(users)
  {
    if users >= 2 {
      SigBFieldWidths(users - 2, compressed);
    }
  }

  function SigBRate(p: Params): nat
    requires Legal(p)
  {
    var rate := SIGB_TONES * BITS_PER_TONE[p.sigBMcs] * RATE_NUM[p.sigBMcs] / RATE_DEN[p.sigBMcs];
    if p.sigBDcm then rate / 2 else rate
  }

  /** `n` symbols of SIG-B are the fewest that hold its fields. */
  ghost predicate FewestSigB(p: Params, n: nat)
    requires Legal(p)
  {
    forall k: nat :: Ldpc.Mul(k, SigBRate(p)) >= (if p.sigBCompressed then 0 else 8 + 4 + 6) + UserBlocks(p.users)
                     <==> k >= n
  }

  lemma SigBRateIsTable(p: Params)
    requires Legal(p)
    ensures SigBRate(p) == if p.sigBDcm then SIGB_BITS[p.sigBMcs] / 2 else SIGB_BITS[p.sigBMcs]
  {
    SigBRatesAreStandard(p.sigBMcs);
    assert p.sigBMcs == 0 || p.sigBMcs == 1 || p.sigBMcs == 2 || p.sigBMcs == 3 || p.sigBMcs == 4 || p.sigBMcs == 5;
  }

  lemma ComputedIsFewest(p: Params)
    requires Legal(p)
    ensures FewestSigB(p, SigBSymbols(p.users, p.sigBCompressed, p.sigBMcs, p.sigBDcm))
  {
    SigBRateIsTable(p);
    SigBFieldWidths(p.users, p.sigBCompressed);
    forall k: nat
      ensures Ldpc.Mul(k, SigBRate(p)) >= SigBBits(p.users, p.sigBCompressed)
              <==> k >= SigBSymbols(p.users, p.sigBCompressed, p.sigBMcs, p.sigBDcm)
    {
      SigBLeast(p.users, p.sigBCompressed, p.sigBMcs, p.sigBDcm, k);
    }
  }

  lemma FewestIsComputed(p: Params, n: nat)
    requires Legal(p) && FewestSigB(p, n)
    ensures SigBSymbols(p.users, p.sigBCompressed, p.sigBMcs, p.sigBDcm) == n
  {
    var s := SigBSymbols(p.users, p.sigBCompressed, p.sigBMcs, p.sigBDcm);
    ComputedIsFewest(p);
    SameFewest(p, n, s);
  }

  lemma SameFewest(p: Params, n: nat, s: nat)
    requires Legal(p) && FewestSigB(p, n) && FewestSigB(p, s)
    ensures n == s
  {
    var a, b := Ldpc.Mul(n, SigBRate(p)), Ldpc.Mul(s, SigBRate(p));
  }

  /** The pads of a packet do not depend on the PPDU type. */
  lemma SamePad(p: Params, ppdu: PpduType, length: nat)
    requires Legal(p)
    ensures Legal(p.(ppdu := ppdu)) && FinalPad(p.(ppdu := ppdu), length) == FinalPad(p, length)
  {}

  /** TXTIME of an SU PPDU: L-STF, L-LTF and L-SIG, RL-SIG, SIG-A, HE-STF, one HE-LTF, data symbols and
    * packet extension. */
  lemma SuTxTime(p: Params, length: nat)
    requires Legal(p) && p.ppdu.SU?
    ensures var pad := FinalPad(p, length);
            TxTime(p, length) == (80 + 80 + 40) + 40 + 80 + 40 + LtfGi(p).0
                                 + pad.nSym * (128 + LtfGi(p).1) + 10 * Pe(p.nominalPe, pad.a)
  {}

  /** What the other types add to the SU PPDU of the same rate and length, besides the difference of
    * their HE-LTF and guard interval: a repeated SIG-A for ER SU; a longer HE-STF and all further
    * HE-LTFs for TB; the fewest symbols that hold SIG-B for MU. */
  lemma TxTimeOverSu(p: Params, length: nat, n: nat)
    requires Legal(p) && FewestSigB(p, n)
    ensures var su := p.(ppdu := SU);
            && Legal(su)
            && TxTime(p, length) - TxTime(su, length)
               == (match p.ppdu
                   case SU => 0
                   case ERSU => 80
                   case TB => 40 + p.heLtfs * LtfGi(p).0
                   case MU => 40 * n)
                  + (LtfGi(p).0 - LtfGi(su).0) + FinalPad(p, length).nSym * (LtfGi(p).1 - LtfGi(su).1)
  {
    var su, k := p.(ppdu := SU), FinalPad(p, length).nSym;
    SamePad(p, SU, length);
    FewestIsComputed(p, n);
    SymbolTimes(k, LtfGi(p).1, LtfGi(su).1);
    if p.ppdu.TB? {
      assert (p.heLtfs + 1) * LtfGi(p).0 == p.heLtfs * LtfGi(p).0 + LtfGi(p).0;
    }
  }

  lemma SymbolTimes(k: nat, g: nat, h: nat)
    ensures Ldpc.Mul(g + T_DFT_HE, k) - Ldpc.Mul(h + T_DFT_HE, k) == k * (g - h)
  {}

  /** A receiver tells the PPDU types apart by the L-SIG LENGTH modulo 3: 1 for SU and TB, 2 for
    * ER SU and MU. */
  lemma LengthModThree(p: Params, length: nat)
    requires Legal(p)
    ensures ExactLength(p, length) % 3 == match p.ppdu case SU => 1 case TB => 1 case ERSU => 2 case MU => 2
  {
    var x := CeilDiv(TxTime(p, length) - T_LEGACY_PREAMBLE, 40);
    ThreeTimes(x, 3 + M(p));
  }

  lemma ThreeTimes(x: nat, d: nat)
    requires d == 4 || d == 5
    ensures (3 * x - d) % 3 == 6 - d
  {}

  // ---------------------------------------------------------------- the receiver, section 27.3.13

  function Minus(b: bool): int { if b then 1 else 0 }

  /** N_SYM = floor((((LENGTH + m + 3) / 3) * 4 us - T_preamble) / T_SYM) - disambiguity. */
  function RxNSym(lsig: nat, m: nat, preamble: nat, tSym: nat, disamb: bool): int
    requires 0 < tSym
  {
    ((lsig + m + 3) * 40 - 3 * preamble) / (3 * tSym) - Minus(disamb)
  }

  /** T_PE = floor((((LENGTH + m + 3) / 3) * 4 us - T_preamble - N_SYM T_SYM) / 4 us) * 4 us. */
  function RxPe(lsig: nat, m: nat, preamble: nat, tSym: nat, nSym: int): int {
    ((lsig + m + 3) * 40 - 3 * preamble - 3 * nSym * tSym) / 120 * 4
  }

  predicate Recovers(p: Params, length: nat, disamb: bool)
    requires Legal(p)
  {
    var l, pad := LSigLength(p, length), FinalPad(p, length);
    && RxNSym(l, M(p), Preamble(p), TSym(p), disamb) == pad.nSym
    && RxPe(l, M(p), Preamble(p), TSym(p), pad.nSym) == Pe(p.nominalPe, pad.a)
  }

  /** The airtime rounded up to 4 us, beyond the last symbol boundary. */
  function Over(p: Params, length: nat): int
    requires Legal(p)
  {
    var pad := FinalPad(p, length);
    40 * CeilDiv(Airtime(p, pad), 40) - Preamble(p) - Ldpc.Mul(TSym(p), pad.nSym)
  }

  lemma Overhang(p: Params, length: nat)
    requires Legal(p)
    ensures var pad, over := FinalPad(p, length), Over(p, length);
            var pe := Pe(p.nominalPe, pad.a);
            && (ExactLength(p, length) + M(p) + 3) * 40 - 3 * Preamble(p) == 3 * Ldpc.Mul(TSym(p), pad.nSym) + 3 * over
            && 10 * pe <= over < 10 * pe + 40
            && (Disambiguity(p, length) <==> over >= TSym(p))
            && 0 <= ExactLength(p, length)
            && pe % 4 == 0 && pe <= 16
  {
    var pad := FinalPad(p, length);
    PeIsClamped(p.nominalPe, pad.a);
    FourMicroseconds(Airtime(p, pad));
    PreambleAtLeast(p);
  }

  lemma PreambleAtLeast(p: Params)
    requires Legal(p)
    ensures 200 <= Preamble(p)
  {}

  lemma FourMicroseconds(d: nat)
    ensures d <= 40 * CeilDiv(d, 40) < d + 40
    ensures 40 * CeilDiv(d, 40) - d == 40 - (if d % 40 == 0 then 40 else d % 40)
  {}

  /** The quotient by three symbol times, for a value on, beyond or short of a symbol boundary. */
  lemma SymbolQuotient(v: int, t: nat, n: nat, over: int)
    requires 0 < t && v == 3 * Ldpc.Mul(t, n) + over
    ensures 0 <= over < 3 * t ==> v / (3 * t) == n
    ensures 3 * t <= over < 6 * t ==> v / (3 * t) == n + 1
    ensures over < 0 ==> v / (3 * t) < n
    ensures v - 3 * n * t == over
  {
    assert n * (3 * t) == 3 * Ldpc.Mul(t, n) == 3 * n * t;
    assert (n + 1) * (3 * t) == n * (3 * t) + 3 * t;
    DivUnique(v, 3 * t, n);
    DivUnique(v, 3 * t, n + 1);
  }

  /** The receiver's equations on a stored length `l` for an exact length `e`. */
  lemma ReceiverEquations(l: nat, e: nat, m: nat, pre: nat, t: nat, n: nat, pe: nat, over: int, disamb: bool)
    requires 128 <= t && pe % 4 == 0 && pe <= 16
    requires (e + m + 3) * 40 - 3 * pre == 3 * Ldpc.Mul(t, n) + 3 * over && 10 * pe <= over < 10 * pe + 40
    ensures l == e ==> (RxNSym(l, m, pre, t, disamb) == n <==> disamb == (over >= t))
    ensures l == e ==> RxPe(l, m, pre, t, n) == pe
    ensures l + 0x1_0000 <= e ==> RxNSym(l, m, pre, t, disamb) < n
  {
    var v := (l + m + 3) * 40 - 3 * pre;
    SymbolQuotient(v, t, n, v - 3 * Ldpc.Mul(t, n));
    ExtensionQuotient(over, pe);
  }

  /** Reading the stored length with a given disambiguity bit recovers both the symbol count and
    * the packet extension exactly when the length did not wrap in 16 bits and the bit is right. */
  lemma ReceiverIff(p: Params, length: nat, disamb: bool)
    requires Legal(p)
    ensures Recovers(p, length, disamb) <==>
            ExactLength(p, length) < 0x1_0000 && disamb == Disambiguity(p, length)
  {
    Overhang(p, length);
    var pad, e := FinalPad(p, length), ExactLength(p, length);
    ReceiverEquations(LSigLength(p, length), e, M(p), Preamble(p), TSym(p), pad.nSym,
                      Pe(p.nominalPe, pad.a), Over(p, length), disamb);
    StoredLength(e);
  }

  lemma StoredLength(e: nat)
    ensures if e < 0x1_0000 then e % 0x1_0000 == e else e % 0x1_0000 + 0x1_0000 <= e
  {}

  lemma ExtensionQuotient(over: int, pe: nat)
    requires pe % 4 == 0 && 10 * pe <= over < 10 * pe + 40
    ensures 3 * over / 120 * 4 == pe
  {}

  /** The code's remainder test is the condition of section 27.3.13: packet extension plus the
    * time to the next multiple of 4 us reaches a symbol. */
  lemma DisambiguityIsStandard(p: Params, length: nat)
    requires Legal(p)
    ensures var d := TxTime(p, length) - T_LEGACY_PREAMBLE;
            Disambiguity(p, length) <==>
            10 * Pe(p.nominalPe, FinalPad(p, length).a) + 40 * CeilDiv(d, 40) - d >= TSym(p)
  {}

  // ---------------------------------------------------------------- emitted bits

  /** The fields of `extra_symbol_afactor`. */
  datatype ExtraSymbol = ExtraSymbol(a: nat, bit2: bool, sigB: nat, users: nat, pe: nat)

  function Fields(word: nat): ExtraSymbol {
    ExtraSymbol(word % 4, word / 4 % 2 == 1, word / 8 % 16, word / 128 % 16, word / 2048)
  }

  function SigBField(p: Params): nat
    requires Legal(p)
  {
    if p.sigBCompressed then p.users - 1
    else
      var n := SigBSymbols(p.users, p.sigBCompressed, p.sigBMcs, p.sigBDcm);
      if n > 15 then 15 else n - 1
  }

  lemma SigBFits(p: Params)
    requires Legal(p)
    ensures SigBSymbols(p.users, p.sigBCompressed, p.sigBMcs, p.sigBDcm) >= 1
    ensures SigBField(p) < 16
  {}

  /** What the word says: `a` modulo 4, the shared bit 2, the MU fields, and the packet extension. */
  function Emitted(p: Params, length: nat): ExtraSymbol
    requires Legal(p)
  {
    var pad := FinalPad(p, length);
    ExtraSymbol(pad.a % 4, ExtraSegment(p, length) || Disambiguity(p, length),
                if p.ppdu.MU? then SigBField(p) else 0, if p.ppdu.MU? then p.users - 1 else 0,
                Pe(p.nominalPe, pad.a) / 4)
  }

  lemma SigBFieldSays(p: Params, n: nat)
    requires Legal(p) && FewestSigB(p, n)
    ensures SigBField(p) + 1 == if p.sigBCompressed then p.users else if n > 16 then 16 else n
  {
    FewestIsComputed(p, n);
    SigBFits(p);
  }

  lemma FieldOfA(a: nat)
    requires 1 <= a <= 4
    ensures (if a % 4 == 0 then 4 else a % 4) == a
  {
  }

  /** What a reader of the word gets: 0 in the field of `a` stands for 4, the packet extension comes in
    * units of 4 us, and for MU the users and the SIG-B symbols, or the users again if compressed,
    * less one and at most 15. */
  lemma WordSays(p: Params, length: nat, n: nat)
    requires Legal(p) && FewestSigB(p, n)
    ensures var w, pad := Emitted(p, length), FinalPad(p, length);
            && (if w.a == 0 then 4 else w.a) == pad.a
            && 4 * w.pe == Pe(p.nominalPe, pad.a)
            && (p.ppdu.MU? ==> w.users + 1 == p.users
                               && w.sigB + 1 == if p.sigBCompressed then p.users else if n > 16 then 16 else n)
  {
    FieldOfA(FinalPad(p, length).a);
    PeIsClamped(p.nominalPe, FinalPad(p, length).a);
    SigBFieldSays(p, n);
  }

  /** The disambiguity condition by its parameters: it needs a nominal packet extension of 16 us and
    * a last symbol with four segments, or with three if the time in excess of a multiple of 4 us
    * leaves enough room before the next one. */
  predicate Ambiguous(nominalPe: nat, a: nat, tSym: nat, excess: nat) {
    nominalPe == 16 && (a == 4 || (a == 3 && 0 < excess <= 160 - tSym))
  }

  lemma DisambiguityIff(p: Params, length: nat)
    requires Legal(p)
    ensures var pad := FinalPad(p, length);
            Disambiguity(p, length) <==> Ambiguous(p.nominalPe, pad.a, TSym(p), Airtime(p, pad) % 40)
  {
    var pad := FinalPad(p, length);
    PeIsClamped(p.nominalPe, pad.a);
    assert TxTime(p, length) - T_LEGACY_PREAMBLE == Airtime(p, pad);
  }

  /** Bit 2 is shared. Read as the disambiguity bit, it lets the receiver recover the symbol count
    * and packet extension exactly when the length did not wrap and either there is no LDPC extra
    * segment, as for BCC, or the timing is ambiguous as well. */
  lemma SharedBitIff(p: Params, length: nat)
    requires Legal(p)
    ensures var pad := FinalPad(p, length);
            Recovers(p, length, Emitted(p, length).bit2) <==>
            && ExactLength(p, length) < 0x1_0000
            && (!ExtraSegment(p, length) || Ambiguous(p.nominalPe, pad.a, TSym(p), Airtime(p, pad) % 40))
  {
    ReceiverIff(p, length, Emitted(p, length).bit2);
    DisambiguityIff(p, length);
  }

  const PACKET_68: Params := Params(SU, 0, false, false, 0, 0, true, 3, 0, 1, false, 0, false)

  lemma LengthOfPacket68()
    ensures ExtraSegment(PACKET_68, 68) && ExactLength(PACKET_68, 68) == 73
  {
    PadOfPacket68();
    Ldpc.DecisionDiffers();
    PeIsClamped(0, 1);
    assert FinalPad(PACKET_68, 68) == Pad(6, 1);
    assert Preamble(PACKET_68) == 200 && TSym(PACKET_68) == 136;
    assert Airtime(PACKET_68, Pad(6, 1)) == 1016;
  }

  lemma PadOfPacket68()
    ensures Legal(PACKET_68) && Dbps(PACKET_68) == 117 && Short(PACKET_68) == 30
    ensures PadFor(PACKET_68, 68) == Pad(5, 4)
  {}

  /** A packet of 68 bytes on 242 tones, MCS 0: the code adds an extra segment, the standard none. */
  lemma DecisionDiffersForPacket()
    ensures exists p: Params, length: nat ::
              && Legal(p) && p.ldpc && ExtraSegment(p, length)
              && !Ldpc.StdDecision(p.mcs, p.dcm, p.ruWidth, PadFor(p, length).a, PadFor(p, length).nSym)
  {
    PadOfPacket68();
    Ldpc.DecisionDiffers();
    assert ExtraSegment(PACKET_68, 68);
  }

  /** The same packet misleads the receiver: the extra segment sets the bit, the timing is not
    * ambiguous, and the symbol count is missed. */
  lemma SharedBitMisleads()
    ensures exists p: Params, length: nat ::
              && Legal(p) && length > 0 && ExactLength(p, length) < 0x1_0000
              && ExtraSegment(p, length) && !Recovers(p, length, Emitted(p, length).bit2)
  {
    LengthOfPacket68();
    SharedBitIff(PACKET_68, 68);
  }

  // ---------------------------------------------------------------- monotonicity

  lemma InitialPadMonotone(p: Params, short: nat, long: nat)
    requires Legal(p) && short <= long
    ensures PadLe(PadFor(p, short), PadFor(p, long))
  {
    ThreeSegmentsFit(p.mcs, p.dcm, p.ruWidth);
    InitialPadLeast(Dbps(p), Short(p), Bits(short), PadFor(p, long));
    InitialPadLeast(Dbps(p), Short(p), Bits(long), PadFor(p, long));
  }

  /** The extra segment depends on the initial pad only, so it cannot overtake a longer packet. */
  lemma FinalPadMonotone(p: Params, short: nat, long: nat)
    requires Legal(p) && short <= long
    ensures PadLe(FinalPad(p, short), FinalPad(p, long))
  {
    InitialPadMonotone(p, short, long);
    if PadFor(p, short) != PadFor(p, long) {
      NextIsImmediate(PadFor(p, short), PadFor(p, long));
    }
  }

  /** One more symbol outweighs any drop of the packet extension. */
  lemma AirtimeMonotone(p: Params, x: Pad, y: Pad)
    requires Legal(p) && 1 <= x.a <= 4 && 1 <= y.a <= 4 && PadLe(x, y)
    ensures Airtime(p, x) <= Airtime(p, y)
  {
    PeIsClamped(p.nominalPe, x.a);
    PeIsClamped(p.nominalPe, y.a);
    var t := TSym(p);
    if x.nSym < y.nSym {
      assert t * (x.nSym + 1) == t * x.nSym + t;
      MulLe(x.nSym + 1, y.nSym, t);
      assert t * (x.nSym + 1) <= t * y.nSym;
    }
  }

  /** TXTIME and the exact L-SIG LENGTH never decrease with the packet length, for BCC and LDPC. */
  lemma LengthMonotone(p: Params, short: nat, long: nat)
    requires Legal(p) && short <= long
    ensures TxTime(p, short) <= TxTime(p, long)
    ensures ExactLength(p, short) <= ExactLength(p, long)
  {
    FinalPadMonotone(p, short, long);
    AirtimeMonotone(p, FinalPad(p, short), FinalPad(p, long));
    var x, y := TxTime(p, short) - T_LEGACY_PREAMBLE, TxTime(p, long) - T_LEGACY_PREAMBLE;
    CeilDivLeast(x, 40, CeilDiv(y, 40));
    CeilDivLeast(y, 40, CeilDiv(y, 40));
  }

  // ---------------------------------------------------------------- the length check

  /** validate_11ax_lsig_len accepts when no bit above the low twelve is set. */
  predicate Accepts(p: Params, length: nat)
    requires Legal(p)
  {
    LSigLength(p, length) < 0x1000
  }

  /** The check tells whether the exact length fits the field's twelve bits. */
  predicate RightAbout(p: Params, length: nat)
    requires Legal(p)
  {
    Accepts(p, length) <==> ExactLength(p, length) < 0x1000
  }

  /** One more byte adds at most nine symbols. */
  lemma OneByteSymbols(p: Params, length: nat)
    requires Legal(p)
    ensures FinalPad(p, length + 1).nSym <= FinalPad(p, length).nSym + 9
  {
    var d, n := Dbps(p), CeilDiv(Bits(length), Dbps(p));
    CeilDivLeast(Bits(length), d, n);
    assert (n + 8) * d == n * d + 8 * d;
    CeilDivLeast(Bits(length + 1), d, n + 8);
  }

  lemma AirtimeStep(t: nat, n: nat, k: nat, pe: nat)
    requires t <= 160 && k <= n + 9 && pe <= 16
    ensures Ldpc.Mul(t, k) + 10 * pe <= Ldpc.Mul(t, n) + 1600
  {
    MulLe(k, n + 9, t);
    assert t * (n + 9) == t * n + 9 * t;
  }

  lemma CeilStep(x: nat, y: nat)
    requires y <= x + 1600
    ensures 3 * CeilDiv(y, 40) <= 3 * CeilDiv(x, 40) + 0x100
  {}

  lemma OneByteTime(p: Params, length: nat)
    requires Legal(p)
    ensures TxTime(p, length + 1) <= TxTime(p, length) + 1600
  {
    OneByteSymbols(p, length);
    var y := FinalPad(p, length + 1);
    PeIsClamped(p.nominalPe, y.a);
    AirtimeStep(TSym(p), FinalPad(p, length).nSym, y.nSym, Pe(p.nominalPe, y.a));
  }

  /** ... and lengthens the L-SIG LENGTH by far less than the range the field can hold. */
  lemma OneByteLength(p: Params, length: nat)
    requires Legal(p)
    ensures ExactLength(p, length + 1) <= ExactLength(p, length) + 0x100
  {
    OneByteTime(p, length);
    CeilStep(TxTime(p, length) - T_LEGACY_PREAMBLE, TxTime(p, length + 1) - T_LEGACY_PREAMBLE);
  }

  lemma EmptyPacketFits(p: Params)
    requires Legal(p)
    ensures 0 <= ExactLength(p, 0) < 0x1000
  {
    var pad, d := FinalPad(p, 0), Dbps(p);
    ExactLengthNonNegative(p, 0);
    CeilDivLeast(Bits(0), d, 22);
    assert pad.nSym <= 23;
    PeIsClamped(p.nominalPe, pad.a);
    MulLe(pad.nSym, 23, TSym(p));
    PreambleAtMost(p);
    CeilDivLeast(TxTime(p, 0) - T_LEGACY_PREAMBLE, 40, 0x155);
  }

  lemma PreambleAtMost(p: Params)
    requires Legal(p)
    ensures Preamble(p) <= 1600
  {
    var bits := if p.sigBDcm then SIGB_BITS[p.sigBMcs] / 2 else SIGB_BITS[p.sigBMcs];
    assert bits >= 13;
    MulLe(13, bits, 20);
    CeilDivLeast(SigBBits(p.users, p.sigBCompressed), bits, 20);
    MulLe(p.heLtfs + 1, 8, LtfGi(p).0);
  }

  /** A small step over the 16-bit boundary is accepted after it and rejected before it. */
  lemma AtTheWrap(x: int, y: int)
    requires x < 0x1_0000 <= y <= x + 0x100
    ensures x % 0x1_0000 >= 0x1000 && y % 0x1_0000 < 0x1000 <= y
  {}

  /** Lengths grow by small steps, so none jumps over the range that wraps back to an accepted one:
    * below an overlong packet lies one that the check accepts wrongly, right above one it rejects. */
  lemma {:induction false} FirstWrap(p: Params, length: nat) returns (n: nat)
    requires Legal(p) && ExactLength(p, length) >= 0x1_0000
    ensures 0 < n <= length && Accepts(p, n) && !RightAbout(p, n) && !Accepts(p, n - 1)
  {
    if length == 0 {
      EmptyPacketFits(p);
    }
    n := length;
    if ExactLength(p, n - 1) >= 0x1_0000 {
      n := FirstWrap(p, n - 1);
    } else {
      OneByteLength(p, n - 1);
      AtTheWrap(ExactLength(p, n - 1), ExactLength(p, n));
    }
  }

  /** Up to the first wrap the accepted lengths are downward closed. */
  lemma AcceptedDownwardClosed(p: Params, short: nat, long: nat)
    requires Legal(p) && short <= long && ExactLength(p, long) < 0x1_0000 && Accepts(p, long)
    ensures Accepts(p, short)
  {
    ExactLengthNonNegative(p, short);
    LengthMonotone(p, short, long);
    BelowStaysBelow(ExactLength(p, short), ExactLength(p, long));
  }

  /** Below the first wrap the check is right. */
  lemma RightBelowWrap(p: Params, short: nat, long: nat)
    requires Legal(p) && short <= long
    ensures ExactLength(p, long) < 0x1_0000 ==> RightAbout(p, short)
  {
    ExactLengthNonNegative(p, short);
    LengthMonotone(p, short, long);
    StoredLength(ExactLength(p, short));
  }

  ghost predicate RightUpTo(p: Params, length: nat)
    requires Legal(p)
  {
    forall n: nat :: n <= length ==> RightAbout(p, n)
  }

  ghost predicate DownwardClosedUpTo(p: Params, length: nat)
    requires Legal(p)
  {
    forall m: nat, n: nat :: m <= n <= length && Accepts(p, n) ==> Accepts(p, m)
  }

  lemma GoodBelowWrap(p: Params, length: nat)
    requires Legal(p)
    ensures ExactLength(p, length) < 0x1_0000 ==> RightUpTo(p, length) && DownwardClosedUpTo(p, length)
  {
    if ExactLength(p, length) < 0x1_0000 {
      forall n: nat | n <= length
        ensures RightAbout(p, n)
      {
        RightBelowWrap(p, n, length);
      }
      forall m: nat, n: nat | m <= n <= length && Accepts(p, n)
        ensures Accepts(p, m)
      {
        LengthMonotone(p, n, length);
        AcceptedDownwardClosed(p, m, n);
      }
    }
  }

  /** The check is right about every packet up to a length, and the accepted lengths up to it are
    * downward closed, exactly when the exact L-SIG LENGTH of that one length fits 16 bits. */
  lemma CheckIsRightIff(p: Params, length: nat)
    requires Legal(p)
    ensures RightUpTo(p, length) <==> ExactLength(p, length) < 0x1_0000
    ensures DownwardClosedUpTo(p, length) <==> ExactLength(p, length) < 0x1_0000
  {
    if ExactLength(p, length) < 0x1_0000 {
      GoodBelowWrap(p, length);
    } else {
      var n := FirstWrap(p, length);
      var m: nat := n - 1;
    }
  }

  lemma BelowStaysBelow(x: int, y: int)
    requires 0 <= x <= y < 0x1_0000 && y % 0x1_0000 < 0x1000
    ensures x % 0x1_0000 < 0x1000
  {}

  lemma ExactLengthNonNegative(p: Params, length: nat)
    requires Legal(p)
    ensures 0 <= ExactLength(p, length)
  {
    Overhang(p, length);
  }

  /** PSDU length from the packet length and the number of aggregated subframes, in 16 bits. */
  function PsduLength(pktLength: nat): nat {
    var aggr := pktLength / 1792 + (if pktLength % 1792 > 0 then 1 else 0);
    (pktLength + aggr * 8) % 0x1_0000
  }

  /** A 20500-byte aggregate on an extended-range PPDU, 106 tones, MCS 0 with DCM: its exact length
    * is 67256, yet the check accepts it. */
  lemma WrappedLengthAccepted()
    ensures exists p: Params, pktLength: nat ::
              Legal(p) && pktLength <= 30000
              && Accepts(p, PsduLength(pktLength)) && ExactLength(p, PsduLength(pktLength)) >= 0x1_0000
  {
    var p := Params(ERSU, 0, true, false, 0, 0, false, 2, 0, 1, false, 0, false);
    var length := PsduLength(20500);
    assert length == 20596;
    assert Dbps(p) == 25 && Short(p) == 6;
    assert PadFor(p, length) == Pad(6592, 1) || PadFor(p, length).nSym == 6592;
    PeIsClamped(0, FinalPad(p, length).a);
    assert TSym(p) == 136 && Preamble(p) == 280;
    assert Airtime(p, FinalPad(p, length)) == 896792;
    assert ExactLength(p, length) == 67256;
  }

  // ---------------------------------------------------------------- LDPC, for every packet

  /** For every packet length and legal parameters the LDPC accounting is exact and no product
    * exceeds 32 bits. */
  lemma LdpcExactForEveryPacket(p: Params, length: nat)
    requires Legal(p) && length < 0x1_0000
    ensures var pad := PadFor(p, length);
            var rn, rd := Ldpc.RateNum(p.mcs, p.dcm), Ldpc.RateDen(p.mcs, p.dcm);
            var npld := Ldpc.Npld(Short(p), Dbps(p), pad.a, pad.nSym);
            var nav := Ldpc.Navbits(Short(p), Dbps(p), pad.a, pad.nSym, rn, rd);
            var pl := Ldpc.PlanFor(p.mcs, Short(p), Dbps(p), pad.a, pad.nSym, p.dcm);
            && npld + pl.nshrt == pl.ncw * pl.payload
            && npld <= 600_000
            && (nav <= 2592 ==> Ldpc.RD_LCM * nav * rd < Ldpc.U32
                                && Ldpc.RD_LCM * npld * rd + 2916 * Ldpc.RD_LCM * (rd - rn) < Ldpc.U32)
            && pl.npunct * 10 * rd < Ldpc.U32 && 12 * pl.npunct * rn < Ldpc.U32
            && pl.nshrt * 10 * (rd - rn) < Ldpc.U32 && pl.ncw * pl.lldpc * 3 * (rd - rn) < Ldpc.U32
  {
    var pad := PadFor(p, length);
    var rn, rd := Ldpc.RateNum(p.mcs, p.dcm), Ldpc.RateDen(p.mcs, p.dcm);
    var npld := Ldpc.Npld(Short(p), Dbps(p), pad.a, pad.nSym);
    Ldpc.BookkeepingExact(p.mcs, p.dcm, p.ruWidth, pad.a, pad.nSym);
    Ldpc.SymbolsFitClasses(p.mcs, p.dcm, p.ruWidth, pad.a, pad.nSym);
    ThreeSegmentsFit(p.mcs, p.dcm, p.ruWidth);
    SymbolsBracket(Dbps(p), Bits(length), pad.nSym - 1);
    MulLe(pad.a, 4, Short(p));
    MulLe(1, pad.a, Short(p));
    Ldpc.ProductsFit32Bits(p.mcs, p.dcm, npld, Ldpc.Navbits(Short(p), Dbps(p), pad.a, pad.nSym, rn, rd));
  }

  /** A packet length that gives the number of symbols at which the decisions differ. */
  function Bytes(mcs: nat, dcm: bool, ruWidth: nat): nat
    requires LegalRate(mcs, dcm, ruWidth)
  {
    if dcm then
      if ruWidth == 0 then [70, 33, 0, 26, 36][mcs]
      else if ruWidth == 2 then [0, 0, 0, 759, 88][mcs]
      else [0, 68, 0, 137, 207][mcs]
    else if ruWidth == 2 then [0, 759, 88, 755, 25, 1003, 268, 298][mcs]
    else [68, 137, 207, 0, 1294, 556, 626, 695][mcs]
  }

  /** More than three segments of the last of `n` symbols, and no more than the symbol. */
  lemma FullLastSymbol(dbps: nat, short: nat, bits: nat, n: nat)
    requires 0 < short && 3 * short < dbps && 1 <= n
    requires Ldpc.Mul(n - 1, dbps) + 3 * short < bits <= Ldpc.Mul(n - 1, dbps) + dbps
    ensures InitialPad(dbps, short, bits) == Pad(n, 4)
  {
    InitialPadLeast(dbps, short, bits, Pad(n, 3));
    InitialPadLeast(dbps, short, bits, Pad(n, 4));
  }

  lemma BytesFill(mcs: nat, dcm: bool, ruWidth: nat)
    requires LegalRate(mcs, dcm, ruWidth) && !LdpcDecision.DecidesWell(mcs, dcm, ruWidth)
    ensures var n, dbps, short := LdpcDecision.Symbols(mcs, dcm, ruWidth), NDbps(mcs, dcm, ruWidth), NDbpsShort(mcs, dcm, ruWidth);
            1 <= n && Ldpc.Mul(n - 1, dbps) + 3 * short < Bits(Bytes(mcs, dcm, ruWidth)) <= Ldpc.Mul(n - 1, dbps) + dbps
  {
    assert mcs == 0 || mcs == 1 || mcs == 2 || mcs == 3 || mcs == 4 || mcs == 5 || mcs == 6 || mcs == 7;
  }

  ghost predicate AlwaysDecidesWell(p: Params)
    requires Legal(p)
  {
    forall length: nat ::
      ExtraSegment(p, length)
      <==> Ldpc.StdDecision(p.mcs, p.dcm, p.ruWidth, PadFor(p, length).a, PadFor(p, length).nSym)
  }

  /** With LDPC, the extra segment is the standard's for every packet length exactly for these
    * table entries. */
  lemma DecisionForPacketsIff(p: Params)
    requires Legal(p) && p.ldpc
    ensures AlwaysDecidesWell(p) <==> LdpcDecision.DecidesWell(p.mcs, p.dcm, p.ruWidth)
  {
    if LdpcDecision.DecidesWell(p.mcs, p.dcm, p.ruWidth) {
      forall length: nat
        ensures ExtraSegment(p, length)
                <==> Ldpc.StdDecision(p.mcs, p.dcm, p.ruWidth, PadFor(p, length).a, PadFor(p, length).nSym)
      {
        var pad := PadFor(p, length);
        LdpcDecision.DecisionIff(p.mcs, p.dcm, p.ruWidth, pad.a);
        assert LdpcDecision.Alike(p.mcs, p.dcm, p.ruWidth, pad.a, pad.nSym);
      }
    } else {
      var n := LdpcDecision.Symbols(p.mcs, p.dcm, p.ruWidth);
      ThreeSegmentsFit(p.mcs, p.dcm, p.ruWidth);
      BytesFill(p.mcs, p.dcm, p.ruWidth);
      FullLastSymbol(Dbps(p), Short(p), Bits(Bytes(p.mcs, p.dcm, p.ruWidth)), n);
      LdpcDecision.SurplusDiffers(p.mcs, p.dcm, p.ruWidth);
      LdpcDecision.AlikeIff(p.mcs, p.dcm, p.ruWidth, n);
      assert PadFor(p, Bytes(p.mcs, p.dcm, p.ruWidth)) == Pad(n, 4);
    }
  }

  // ---------------------------------------------------------------- the tool's code

  /** The pre-FEC padding of get_11ax_pkt_duration: symbols and segments of the last symbol. */
  method PreFecPad(dbps: nat, short: nat, length: nat) returns (nSym: nat, a: nat)
    requires 0 < dbps && 0 < short
    ensures Pad(nSym, a) == InitialPad(dbps, short, Bits(length))
  {
    var excess := (length * 8 + SERVICE_AND_TAIL) % dbps;
    nSym := (length * 8 + SERVICE_AND_TAIL) / dbps;
    if excess != 0 {
      nSym := nSym + 1;
    }
    if excess == 0 {
      a := 4;
    } else {
      a := excess / short;
      if excess % short != 0 {
        a := a + 1;
      }
      if a > 4 {
        a := 4;
      }
    }
  }

  /** The tail of get_11ax_pkt_duration: time on air and the disambiguity test. */
  method TimeOnAir(preamble: nat, tSym: nat, nSym: nat, pe: nat) returns (txTime: nat, disamb: bool)
    ensures txTime == T_LEGACY_PREAMBLE + (preamble + Ldpc.Mul(tSym, nSym) + 10 * pe)
    ensures var r := (txTime - T_LEGACY_PREAMBLE) % 40;
            disamb <==> 10 * pe + 40 - (if r == 0 then 40 else r) >= tSym
  {
    txTime := T_LEGACY_PREAMBLE + preamble + tSym * nSym + pe * 10;
    var rem := (txTime - T_LEGACY_PREAMBLE) % 40;
    if rem == 0 {
      rem := 40;
    }
    disamb := pe * 10 + 40 - rem >= tSym;
  }

  /** Padding with the LDPC extra segment. */
  method FinalPadding(p: Params, length: nat) returns (nSym: nat, a: nat, extra: bool)
    requires Legal(p)
    ensures Pad(nSym, a) == FinalPad(p, length) && extra == ExtraSegment(p, length)
  {
    ThreeSegmentsFit(p.mcs, p.dcm, p.ruWidth);
    nSym, a := PreFecPad(Dbps(p), Short(p), length);
    assert Pad(nSym, a) == PadFor(p, length);
    extra := false;
    if p.ldpc {
      extra := Ldpc.ExtraSymCheck(p.mcs, Short(p), Dbps(p), a, nSym, p.dcm);
      if extra {
        if a == 4 {
          nSym := nSym + 1;
          a := 1;
        } else {
          a := a + 1;
        }
      }
    }
  }

  /** The word, as a sum: the bits it is ORed from are disjoint, except bit 2, which two
    * conditions set. */
  method PackWord(a: nat, bit2: bool, sigB: nat, users: nat, pe: nat) returns (word: nat)
    requires 1 <= a <= 4 && sigB < 16 && users < 16
    ensures Fields(word) == ExtraSymbol(a % 4, bit2, sigB, users, pe / 4)
  {
    word := sigB * 8 + users * 128;
    if bit2 {
      word := word + 4;
    }
    if a != 4 {
      word := word + a;
    }
    var steps := pe / 4;
    word := word + steps * 2048;
    ghost var low: nat, bit: nat := if a == 4 then 0 else a, if bit2 then 1 else 0;
    FieldsOfSum(low, bit, sigB, users, steps);
    assert word == low + bit * 4 + sigB * 8 + users * 128 + steps * 2048;
  }

  /** The whole of get_11ax_pkt_duration, for a word that starts at 0. */
  method GetPktDuration(p: Params, length: nat) returns (txTime: nat, word: nat)
    requires Legal(p) && length < 0x1_0000
    ensures txTime == TxTime(p, length)
    ensures Fields(word) == Emitted(p, length)
  {
    SigBFits(p);
    var sigB := if p.ppdu.MU? then SigBField(p) else 0;
    var users := if p.ppdu.MU? then p.users - 1 else 0;
    var nSym, a, extra := FinalPadding(p, length);
    var pe := Pe(p.nominalPe, a);
    var disamb;
    txTime, disamb := TimeOnAir(Preamble(p), TSym(p), nSym, pe);
    assert disamb == Disambiguity(p, length);
    word := PackWord(a, extra || disamb, sigB, users, pe);
  }

  lemma FieldsOfSum(a: nat, b: nat, sigB: nat, users: nat, pe: nat)
    requires a < 4 && b < 2 && sigB < 16 && users < 16
    ensures Fields(a + b * 4 + sigB * 8 + users * 128 + pe * 2048) == ExtraSymbol(a, b == 1, sigB, users, pe)
  {
    var w := a + b * 4 + sigB * 8 + users * 128 + pe * 2048;
    LowHigh(w, a, 4, b + 2 * (sigB + 16 * (users + 16 * pe)));
    LowHigh(w, a + 4 * b, 8, sigB + 16 * (users + 16 * pe));
    LowHigh(w, a + 4 * b + 8 * sigB, 128, users + 16 * pe);
    LowHigh(w, a + 4 * b + 8 * sigB + 128 * users, 2048, pe);
    LowHigh(w / 4, b, 2, sigB + 16 * (users + 16 * pe));
    LowHigh(w / 8, sigB, 16, users + 16 * pe);
    LowHigh(w / 128, users, 16, pe);
  }

  lemma LowHigh(w: nat, low: nat, d: nat, high: nat)
    requires low < d && w == low + d * high
    ensures w / d == high && w % d == low
  {
    DivUnique(w, d, high);
  }

  /** heppdu_spoof_length_calculation */
  method SpoofLength(p: Params, length: nat) returns (lSig: nat)
    requires Legal(p) && length < 0x1_0000
    ensures lSig == LSigLength(p, length)
  {
    Overhang(p, length);
    var txTime, word := GetPktDuration(p, length);
    var m := if p.ppdu.ERSU? || p.ppdu.MU? then 1 else 2;
    var x := (txTime - T_LEGACY_PREAMBLE) / 40;
    if (txTime - T_LEGACY_PREAMBLE) % 40 != 0 {
      x := x + 1;
    }
    lSig := (x * 2 + x - 3 - m) % 0x1_0000;
  }
}
