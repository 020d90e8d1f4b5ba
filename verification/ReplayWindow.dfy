/** The group-key replay window of rsi/rsi_91x_mac80211.c: sections 12.5.3.4.4 (CCMP) and
  * 12.5.2.6 (TKIP) of IEEE Std 802.11. */
module ReplayWindow {
  import opened Wrappers

  type byte = n: nat | n < 256
  type Pn = s: seq<byte> | |s| == 6 witness [0, 0, 0, 0, 0, 0]
  type Header = s: seq<byte> | |s| == 8 witness [0, 0, 0, 0, 0, 0, 0, 0]

  const ZERO_PN: Pn := [0, 0, 0, 0, 0, 0]
  const RSI_AES_CMAC := 4

  datatype Cipher = CCMP | CCMP256 | TKIP | AesCmac | Other
  datatype Key = Key(keyidx: nat, cipher: Cipher, pairwise: bool)

  /** Big-endian value of a byte string. */
  function Value(s: seq<byte>): nat {
    if s == [] then 0 else Value(s[..|s| - 1]) * 256 + s[|s| - 1]
  }

  /** Sign of memcmp on strings of one length. */
  function Memcmp(a: seq<byte>, b: seq<byte>): int
    requires |a| == |b|
  {
    if a == [] then 0
    else if a[0] != b[0] then a[0] - b[0]
    else Memcmp(a[1..], b[1..])
  }

  function Pow256(n: nat): nat {
    if n == 0 then 1 else 256 * Pow256(n - 1)
  }

  lemma {:induction false} ValueFromHead(s: seq<byte>)
    requires s != []
    ensures Value(s) == s[0] * Pow256(|s| - 1) + Value(s[1..])
    ensures Value(s[1..]) < Pow256(|s| - 1)
  {
    if |s| == 1 {
      assert s[..0] == [] && s[1..] == [];
      assert Value([]) == 0;
    } else {
      var t := s[..|s| - 1];
      ValueFromHead(t);
      assert t[1..] == s[1..][..|s| - 2];
      assert s[1..][|s| - 2] == s[|s| - 1];
      assert Value(s[1..]) == Value(t[1..]) * 256 + s[|s| - 1];
      assert Pow256(|s| - 1) == 256 * Pow256(|t| - 1);
      Shift(s[0], Pow256(|t| - 1));
    }
  }

  lemma Shift(x: nat, p: nat)
    ensures x * (256 * p) == x * p * 256
  {}

  /** memcmp on big-endian strings is the numeric order. */
  lemma {:induction false} MemcmpIsNumericOrder(a: seq<byte>, b: seq<byte>)
    requires |a| == |b|
    ensures Memcmp(a, b) > 0 <==> Value(a) > Value(b)
    ensures Memcmp(a, b) == 0 <==> Value(a) == Value(b)
  {
    if a != [] {
      ValueFromHead(a);
      ValueFromHead(b);
      MemcmpIsNumericOrder(a[1..], b[1..]);
      HeadDecides(a[0], b[0], Pow256(|a| - 1), Value(a[1..]), Value(b[1..]));
      HeadDecides(b[0], a[0], Pow256(|a| - 1), Value(b[1..]), Value(a[1..]));
    }
  }

  lemma HeadDecides(x: nat, y: nat, p: nat, u: nat, v: nat)
    requires u < p && v < p
    ensures x > y ==> x * p + u > y * p + v
  {
    if x > y {
      assert (x - y - 1) * p >= 0;
      assert x * p == (x - y - 1) * p + y * p + p;
    }
  }

  // ---------------------------------------------------------------- frame layouts

  function CcmpPn(h: Header): Pn { [h[7], h[6], h[5], h[4], h[1], h[0]] }

  function TkipPn(h: Header): Pn { [h[7], h[6], h[5], h[4], h[0], h[2]] }

  /** The code reads the CCMP layout for CCMP only, and the TKIP layout for every other cipher. */
  function FramePn(c: Cipher, h: Header): Pn {
    if c == CCMP then CcmpPn(h) else TkipPn(h)
  }

  function KeyId(h: Header): nat { h[3] / 64 }

  function Number48(b0: nat, b1: nat, b2: nat, b3: nat, b4: nat, b5: nat): nat {
    b0 + 0x100 * b1 + 0x1_0000 * b2 + 0x100_0000 * b3 + 0x1_0000_0000 * b4 + 0x100_0000_0000 * b5
  }

  /** Packet number of a CCMP header: PN0, PN1, reserved, key id, PN2 to PN5, least significant first. */
  function CcmpNumber(h: Header): nat {
    Number48(h[0], h[1], h[4], h[5], h[6], h[7])
  }

  /** Sequence counter of a TKIP header: TSC1, WEP seed, TSC0, key id, TSC2 to TSC5. */
  function TkipNumber(h: Header): nat {
    Number48(h[2], h[0], h[4], h[5], h[6], h[7])
  }

  lemma SixBytes(s: Pn)
    ensures Value(s) == Number48(s[5], s[4], s[3], s[2], s[1], s[0])
  {
    assert s[..5][..4] == s[..4] && s[..4][..3] == s[..3] && s[..3][..2] == s[..2] && s[..2][..1] == s[..1];
    assert s[..1][..0] == [];
    assert Value(s[..1]) == s[0];
    assert Value(s[..2]) == 256 * Value(s[..1]) + s[1];
    assert Value(s[..3]) == 256 * Value(s[..2]) + s[2];
    assert Value(s[..4]) == 256 * Value(s[..3]) + s[3];
    assert Value(s[..5]) == 256 * Value(s[..4]) + s[4];
  }

  /** Both layouts decode to the 48-bit number of their header. Read in the TKIP layout, a CCMP
    * header decodes to its own number exactly when its first three bytes are equal. */
  lemma DecodedNumber(h: Header)
    ensures Value(CcmpPn(h)) == CcmpNumber(h)
    ensures Value(TkipPn(h)) == TkipNumber(h)
    ensures Value(TkipPn(h)) == CcmpNumber(h) <==> h[0] == h[1] == h[2]
  {
    SixBytes(CcmpPn(h));
    SixBytes(TkipPn(h));
  }

  /** The six bytes stored for a TKIP receive counter. */
  function CounterPn(iv32: nat, iv16: nat): Pn {
    [iv32 / 0x100_0000 % 256, iv32 / 0x1_0000 % 256, iv32 / 0x100 % 256, iv32 % 256, iv16 / 0x100 % 256, iv16 % 256]
  }

  lemma CounterNumber(iv32: nat, iv16: nat)
    requires iv32 < 0x1_0000_0000 && iv16 < 0x1_0000
    ensures Value(CounterPn(iv32, iv16)) == iv32 * 0x1_0000 + iv16
  {
    SixBytes(CounterPn(iv32, iv16));
    FourBytes(iv32);
    assert iv16 == iv16 / 0x100 % 256 * 0x100 + iv16 % 256;
  }

  lemma FourBytes(x: nat)
    requires x < 0x1_0000_0000
    ensures x == x % 256 + 0x100 * (x / 0x100 % 256) + 0x1_0000 * (x / 0x1_0000 % 256) + 0x100_0000 * (x / 0x100_0000 % 256)
  {
    assert x / 0x100 == x / 0x1_0000 * 256 + x / 0x100 % 256;
    assert x / 0x1_0000 == x / 0x100_0000 * 256 + x / 0x1_0000 % 256;
  }

  /** Under CCMP-256 packet 256 after packet 255 is decoded to a smaller number, hence dropped. */
  lemma Ccmp256OutOfOrder()
    ensures exists h: Header, g: Header ::
              CcmpNumber(h) < CcmpNumber(g) && Value(FramePn(CCMP256, g)) < Value(FramePn(CCMP256, h))
  {
    var h: Header := [255, 0, 0, 0, 0, 0, 0, 0];
    var g: Header := [0, 1, 0, 0, 0, 0, 0, 0];
    DecodedNumber(h);
    DecodedNumber(g);
  }

  // ---------------------------------------------------------------- the window

  /** The replay fields of `struct vif_priv`. */
  datatype Window = Window(key: Option<Key>, pn: Pn, prevPn: Pn, prevKeyid: nat, pnValid: bool)

  datatype Event =
    | Install(k: Key, seqPn: Pn, halOk: bool)   // SET_KEY; seqPn is the key's receive counter
    | Delete(k: Key)                            // DISABLE_KEY
    | Reset                                     // the interface is added
    | Receive(group: bool, h: Header)           // a protected frame for this interface

  /** SET_KEY takes effect on the window only for these ciphers. */
  predicate Tracks(k: Key) {
    !k.pairwise && k.cipher != Other
  }

  predicate Installs(e: Event) {
    e.Install? && e.k.keyidx != RSI_AES_CMAC && e.halOk && Tracks(e.k)
  }

  /** What rsi_validate_pn returns: 1 not checked, 0 passed, -1 dropped. */
  function Verdict(w: Window, e: Event): int
    requires e.Receive?
  {
    if !e.group || w.key.None? || !w.pnValid then 1
    else
      var cur := FramePn(w.key.value.cipher, e.h);
      if KeyId(e.h) == w.key.value.keyidx then if Memcmp(cur, w.pn) <= 0 then -1 else 0
      else if KeyId(e.h) == w.prevKeyid then if Memcmp(cur, w.prevPn) <= 0 then -1 else 0
      else 0
  }

  /** Passed, with the current or the previous key id. */
  predicate Accepted(w: Window, e: Event) {
    && e.Receive? && Verdict(w, e) == 0
    && (KeyId(e.h) == w.key.value.keyidx || KeyId(e.h) == w.prevKeyid)
  }

  function After(w: Window, e: Event): Window {
    match e
    case Install(k, seqPn, _) =>
      if Installs(e) then w.(key := Some(k), pn := seqPn, pnValid := true) else w
    case Reset => w.(pn := ZERO_PN, pnValid := false, key := None)
    case Delete(k) =>
      if k.keyidx == RSI_AES_CMAC then w
      else
        var v := if w.key.Some? then w.(prevKeyid := w.key.value.keyidx, prevPn := w.pn) else w;
        v.(pn := ZERO_PN, pnValid := false, key := None)
    case Receive(_, h) =>
      if !Accepted(w, e) then w
      else
        var cur := FramePn(w.key.value.cipher, h);
        if KeyId(h) == w.key.value.keyidx then w.(pn := cur) else w.(prevPn := cur)
  }

  /** The number the next accepted frame of key id `id` must exceed, if `id` is matched at all. */
  function Floor(w: Window, id: nat): Option<nat> {
    if w.key.Some? && w.key.value.keyidx == id then Some(Value(w.pn))
    else if w.prevKeyid == id then Some(Value(w.prevPn))
    else None
  }

  /** mac80211 holds the group key `id` installed. */
  predicate HeldAfter(held: bool, e: Event, id: nat) {
    match e
    case Install(_, _, _) => held || Reinstalls(e, id)
    case Delete(k) => held && (k.pairwise || k.keyidx != id)
    case Reset => false
    case Receive(_, _) => held
  }

  /** The driver has a key and a window to check frames against. */
  predicate Watching(w: Window) {
    w.key.Some? && w.pnValid
  }

  predicate Matched(w: Window, id: nat) {
    (w.key.Some? && w.key.value.keyidx == id) || w.prevKeyid == id
  }

  /** A group frame of key id `id` that the driver hands up: the caller drops negative verdicts only.
    * Of the frames that are not checked, for want of a window or of a match, those count that come
    * while mac80211 holds the key. */
  predicate Delivered(w: Window, held: bool, e: Event, id: nat) {
    && e.Receive? && e.group && KeyId(e.h) == id && Verdict(w, e) >= 0
    && (held || (Watching(w) && Matched(w, id)))
  }

  /** The number of a frame as the driver decodes it; under cipher `c` when it has no key. */
  function Number(w: Window, c: Cipher, h: Header): nat {
    Value(FramePn(if w.key.Some? then w.key.value.cipher else c, h))
  }

  /** Packet numbers delivered for a key id along a run. */
  function DeliveredNumbers(w: Window, held: bool, es: seq<Event>, id: nat, c: Cipher): seq<nat>
    decreases es
  {
    if es == [] then []
    else
      (if Delivered(w, held, es[0], id) then [Number(w, c, es[0].h)] else [])
      + DeliveredNumbers(After(w, es[0]), HeldAfter(held, es[0], id), es[1..], id, c)
  }

  predicate IncreasingAbove(floor: nat, s: seq<nat>)
    decreases s
  {
    s != [] ==> floor < s[0] && IncreasingAbove(s[0], s[1..])
  }

  /** Another key is installed over the live key `id`, or the interface added again, while an older,
    * lower window of the same id is still the previous one. */
  predicate Rewinds(w: Window, e: Event, id: nat) {
    && ((Installs(e) && e.k.keyidx != id) || e.Reset?)
    && w.key.Some? && w.key.value.keyidx == id && w.prevKeyid == id && Value(w.prevPn) < Value(w.pn)
  }

  /** DISABLE_KEY for a key other than the group key `id`: pairwise, or of another id. */
  predicate DisablesOther(e: Event, id: nat) {
    e.Delete? && e.k.keyidx != RSI_AES_CMAC && (e.k.pairwise || e.k.keyidx != id)
  }

  /** mac80211 is given group key `id` anew. */
  predicate Reinstalls(e: Event, id: nat) {
    e.Install? && e.halOk && !e.k.pairwise && e.k.keyidx == id
  }

  /** Another group key is installed over the live key `id`, whose window is lost unless one that
    * is at least as high is still the previous one. */
  predicate Overwrites(w: Window, e: Event, id: nat) {
    && InstallsOther(e, id)
    && w.key.Some? && w.key.value.keyidx == id && !(w.prevKeyid == id && Value(w.pn) <= Value(w.prevPn))
  }

  predicate InstallsOther(e: Event, id: nat) {
    Installs(e) && e.k.keyidx != id
  }

  /** Along the run key id `id` is not installed again, no step rewinds its window, and, while
    * mac80211 holds it, no other key is disabled and none overwrites its window. */
  predicate Steady(w: Window, held: bool, es: seq<Event>, id: nat)
    decreases es
  {
    es != [] ==>
      && !Reinstalls(es[0], id)
      && !Rewinds(w, es[0], id)
      && !(held && (DisablesOther(es[0], id) || Overwrites(w, es[0], id)))
      && Steady(After(w, es[0]), HeldAfter(held, es[0], id), es[1..], id)
  }

  /** The driver checks the frames of key id `id`. */
  predicate Guards(w: Window, id: nat) {
    Watching(w) && Matched(w, id)
  }

  /** A frame handed up by a driver that guards its key id was accepted by the check. */
  lemma DeliveredIsAccepted(w: Window, held: bool, e: Event, id: nat)
    requires held ==> Guards(w, id)
    ensures Delivered(w, held, e, id) <==> Accepted(w, e) && KeyId(e.h) == id
  {}

  /** One step never lowers the floor of a key id that is neither reinstalled nor rewound; an
    * accepted frame is above the floor and becomes the new one. */
  lemma StepKeepsFloor(w: Window, e: Event, id: nat)
    requires !(Installs(e) && e.k.keyidx == id) && !Rewinds(w, e, id)
    ensures var f, g := Floor(w, id), Floor(After(w, e), id);
            && (g.Some? ==> f.Some? && f.value <= g.value)
            && (Accepted(w, e) && KeyId(e.h) == id ==>
                  var v := Value(FramePn(w.key.value.cipher, e.h));
                  f.Some? && f.value < v && g == Some(v))
  {
    if e.Receive? && w.key.Some? {
      var cur := FramePn(w.key.value.cipher, e.h);
      MemcmpIsNumericOrder(cur, w.pn);
      MemcmpIsNumericOrder(cur, w.prevPn);
    }
  }

  /** While a held key is not reinstalled, no other disabled and none installed over it, the driver
    * keeps guarding it. */
  lemma StepKeepsGuarding(w: Window, held: bool, e: Event, id: nat)
    requires id < RSI_AES_CMAC && (held ==> Guards(w, id)) && !Reinstalls(e, id)
    requires !(held && (DisablesOther(e, id) || Overwrites(w, e, id)))
    ensures HeldAfter(held, e, id) ==> Guards(After(w, e), id)
  {}

  /** Over a whole run of receptions, deletions and installations of other keys, the numbers
    * delivered under a key id strictly increase, from above the value it was installed with. */
  lemma {:induction false} ReplaySafe(w: Window, held: bool, es: seq<Event>, id: nat, c: Cipher)
    requires id < RSI_AES_CMAC && (held ==> Guards(w, id)) && Steady(w, held, es, id)
    ensures var s := DeliveredNumbers(w, held, es, id, c);
            && (Floor(w, id).None? ==> s == [])
            && (Floor(w, id).Some? ==> IncreasingAbove(Floor(w, id).value, s))
    decreases es
  {
    if es != [] {
      StepKeepsFloor(w, es[0], id);
      StepKeepsGuarding(w, held, es[0], id);
      var v, h := After(w, es[0]), HeldAfter(held, es[0], id);
      ReplaySafe(v, h, es[1..], id, c);
      DeliveredIsAccepted(w, held, es[0], id);
      IncreasingFrom(Floor(w, id), Floor(v, id), DeliveredNumbers(w, held, es, id, c),
                     DeliveredNumbers(v, h, es[1..], id, c));
    }
  }

  /** A number above the old floor that is the new one, or nothing, put in front. */
  lemma IncreasingFrom(f: Option<nat>, g: Option<nat>, s: seq<nat>, rest: seq<nat>)
    requires g.Some? ==> f.Some? && f.value <= g.value
    requires g.None? ==> rest == []
    requires g.Some? ==> IncreasingAbove(g.value, rest)
    requires s == rest || (s != [] && s == [s[0]] + rest && f.Some? && f.value < s[0] && g == Some(s[0]))
    ensures f.None? ==> s == []
    ensures f.Some? ==> IncreasingAbove(f.value, s)
  {
    if s != rest {
      assert s[1..] == rest;
    }
  }

  /** Each key is deleted before the next one is installed, and before the interface is added. */
  predicate DeletesFirst(w: Window, held: bool, es: seq<Event>, id: nat)
    decreases es
  {
    es != [] ==>
      && (Installs(es[0]) || es[0].Reset? ==> w.key.None?)
      && !(held && DisablesOther(es[0], id))
      && DeletesFirst(After(w, es[0]), HeldAfter(held, es[0], id), es[1..], id)
  }

  /** Deleting the key first is enough for a run to be steady. */
  lemma {:induction false} DeleteFirstIsSteady(w: Window, held: bool, es: seq<Event>, id: nat)
    requires DeletesFirst(w, held, es, id)
    requires forall e :: e in es ==> !Reinstalls(e, id)
    ensures Steady(w, held, es, id)
    decreases es
  {
    if es != [] {
      DeleteFirstIsSteady(After(w, es[0]), HeldAfter(held, es[0], id), es[1..], id);
    }
  }

  // ---------------------------------------------------------------- from the installation on

  /** A group frame of a guarded key id is dropped exactly when its number is at or below the window;
    * any other passes. */
  lemma DropsIff(w: Window, id: nat, h: Header)
    requires Guards(w, id) && KeyId(h) == id
    ensures Verdict(w, Receive(true, h)) ==
            if Value(FramePn(w.key.value.cipher, h)) <= Floor(w, id).value then -1 else 0
  {
    var cur := FramePn(w.key.value.cipher, h);
    MemcmpIsNumericOrder(cur, if w.key.value.keyidx == id then w.pn else w.prevPn);
  }

  /** Right after its installation a key is guarded from its receive counter on: a group frame of it is
    * dropped exactly when its number is at or below that counter. */
  lemma InstalledWindow(w: Window, k: Key, seqPn: Pn, h: Header)
    requires Installs(Install(k, seqPn, true)) && KeyId(h) == k.keyidx
    ensures var v := After(w, Install(k, seqPn, true));
            && Guards(v, k.keyidx)
            && (Verdict(v, Receive(true, h)) < 0 <==> Value(FramePn(k.cipher, h)) <= Value(seqPn))
  {
    DropsIff(After(w, Install(k, seqPn, true)), k.keyidx, h);
  }

  /** ReplaySafe for a run that begins with the installation: the floor is the key's receive counter. */
  lemma InstalledReplaySafe(w: Window, k: Key, seqPn: Pn, es: seq<Event>)
    requires Installs(Install(k, seqPn, true)) && k.keyidx < RSI_AES_CMAC
    requires Steady(After(w, Install(k, seqPn, true)), true, es, k.keyidx)
    ensures var run := [Install(k, seqPn, true)] + es;
            forall held: bool :: IncreasingAbove(Value(seqPn), DeliveredNumbers(w, held, run, k.keyidx, k.cipher))
  {
    var e := Install(k, seqPn, true);
    ReplaySafe(After(w, e), true, es, k.keyidx, k.cipher);
    forall held: bool
      ensures DeliveredNumbers(w, held, [e] + es, k.keyidx, k.cipher)
              == DeliveredNumbers(After(w, e), true, es, k.keyidx, k.cipher)
    {
      OperationFirst(w, held, e, es, k.keyidx, k.cipher);
    }
  }

  /** Once the key is deleted and another one installed, frames of the old id are still dropped
    * exactly when they are at or below its last window. */
  lemma DeletedStillChecked(w: Window, d: Key, k: Key, seqPn: Pn, h: Header)
    requires Watching(w) && d.keyidx != RSI_AES_CMAC && Installs(Install(k, seqPn, true))
    requires KeyId(h) == w.key.value.keyidx && k.keyidx != w.key.value.keyidx
    ensures var v := After(After(w, Delete(d)), Install(k, seqPn, true));
            Verdict(v, Receive(true, h)) < 0 <==> Value(FramePn(k.cipher, h)) <= Value(w.pn)
  {
    DropsIff(After(After(w, Delete(d)), Install(k, seqPn, true)), w.key.value.keyidx, h);
  }

  // ---------------------------------------------------------------- other keys beside a held one

  /** A frame that decodes to number 0. */
  lemma FrameZero(w: Window, c: Cipher, id: nat) returns (e: Event)
    requires id < 4
    ensures e.Receive? && e.group && KeyId(e.h) == id && Number(w, c, e.h) == 0
  {
    e := Receive(true, [0, 0, 0, id * 64, 0, 0, 0, 0]);
    SixBytes(CcmpPn(e.h));
    SixBytes(TkipPn(e.h));
  }

  /** A frame with a given number. */
  function FrameOf(w: Window, c: Cipher, id: nat, pn: Pn): (e: Event)
    requires id < 4
    ensures e.Receive? && e.group && KeyId(e.h) == id && Number(w, c, e.h) == Value(pn)
    ensures FramePn(if w.key.Some? then w.key.value.cipher else c, e.h) == pn
  {
    var cipher := if w.key.Some? then w.key.value.cipher else c;
    assert FramePn(cipher, HeaderFor(cipher, id, pn)) == pn;
    Receive(true, HeaderFor(cipher, id, pn))
  }

  /** Every frame of a held key that is handed up has a number above `pn` exactly when the driver
    * guards the key with a window at or above it. */
  lemma CheckedIff(w: Window, id: nat, c: Cipher, pn: Pn)
    requires id < 4
    ensures Guards(w, id) && Value(pn) <= Floor(w, id).value
            <==> forall e: Event :: Delivered(w, true, e, id) ==> Number(w, c, e.h) > Value(pn)
  {
    if !Guards(w, id) {
      var e := FrameZero(w, c, id);
      assert Delivered(w, true, e, id);
    } else if Value(pn) > Floor(w, id).value {
      var e := FrameOf(w, c, id, pn);
      MemcmpIsNumericOrder(pn, if w.key.value.keyidx == id then w.pn else w.prevPn);
      assert Delivered(w, true, e, id);
    } else {
      forall e: Event | Delivered(w, true, e, id)
        ensures Number(w, c, e.h) > Value(pn)
      {
        DeliveredIsAccepted(w, true, e, id);
        StepKeepsFloor(w, e, id);
      }
    }
  }

  /** The key `id` stays installed: it is neither taken away nor installed anew, and the interface is
    * not added again. */
  predicate StaysHeld(es: seq<Event>, id: nat) {
    forall e :: e in es ==> !Reinstalls(e, id) && !e.Reset? && (e.Delete? ==> e.k.pairwise || e.k.keyidx != id)
  }

  predicate NoOtherDisabled(es: seq<Event>, id: nat) {
    forall e :: e in es ==> !DisablesOther(e, id)
  }

  predicate NoOtherInstalled(es: seq<Event>, id: nat) {
    forall e :: e in es ==> !InstallsOther(e, id)
  }

  lemma {:induction false} UndisturbedIsSteady(w: Window, es: seq<Event>, id: nat)
    requires id < RSI_AES_CMAC && StaysHeld(es, id) && NoOtherDisabled(es, id)
    requires NoOtherInstalled(es, id) || Exhausted(w, id)
    ensures Steady(w, true, es, id)
    decreases es
  {
    if es != [] {
      assert es[0] in es && forall e :: e in es[1..] ==> e in es;
      if Exhausted(w, id) {
        StaysExhausted(w, es[0], id);
      }
      UndisturbedIsSteady(After(w, es[0]), es[1..], id);
    }
  }

  /** Whatever comes next, as long as the key stays held, no other is disabled and none installed,
    * increasing numbers above `floor` are delivered. */
  ghost predicate KeepsIncreasing(w: Window, floor: nat, id: nat, c: Cipher) {
    forall more: seq<Event> :: StaysHeld(more, id) && NoOtherDisabled(more, id) && NoOtherInstalled(more, id) ==>
      IncreasingAbove(floor, DeliveredNumbers(w, true, more, id, c))
  }

  /** From any state, a held key delivers increasing numbers above `pn` in every such continuation
    * exactly when the driver guards it with a window at or above `pn`. */
  lemma ContinuationIff(w: Window, id: nat, c: Cipher, pn: Pn)
    requires id < 4
    ensures KeepsIncreasing(w, Value(pn), id, c) <==> Guards(w, id) && Value(pn) <= Floor(w, id).value
  {
    if Guards(w, id) && Value(pn) <= Floor(w, id).value {
      forall more: seq<Event> | StaysHeld(more, id) && NoOtherDisabled(more, id) && NoOtherInstalled(more, id)
        ensures IncreasingAbove(Value(pn), DeliveredNumbers(w, true, more, id, c))
      {
        UndisturbedIsSteady(w, more, id);
        ReplaySafe(w, true, more, id, c);
        Lower(Value(pn), Floor(w, id).value, DeliveredNumbers(w, true, more, id, c));
      }
    } else {
      CheckedIff(w, id, c, pn);
      var e :| Delivered(w, true, e, id) && Number(w, c, e.h) <= Value(pn);
      var more := [e];
      assert DeliveredNumbers(w, true, more, id, c) == [Number(w, c, e.h)];
      assert StaysHeld(more, id) && NoOtherDisabled(more, id) && NoOtherInstalled(more, id);
    }
  }

  lemma Lower(f: nat, g: nat, s: seq<nat>)
    requires f <= g && IncreasingAbove(g, s)
    ensures IncreasingAbove(f, s)
  {}

  /** A step on a guarded key that stays held lets some frame at or below the window through exactly
    * when it disables another key or installs one over the window. */
  lemma BreachIff(w: Window, e: Event, id: nat, c: Cipher)
    requires id < 4 && Guards(w, id) && StaysHeld([e], id)
    ensures DisablesOther(e, id) || Overwrites(w, e, id)
            <==> exists r: Event :: Delivered(After(w, e), true, r, id)
                                    && Number(After(w, e), c, r.h) <= Floor(w, id).value
  {
    assert e in [e];
    var v := After(w, e);
    var pn := if w.key.value.keyidx == id then w.pn else w.prevPn;
    CheckedIff(v, id, c, pn);
    if DisablesOther(e, id) || Overwrites(w, e, id) {
      assert !(Guards(v, id) && Value(pn) <= Floor(v, id).value);
    } else {
      StepKeepsGuarding(w, true, e, id);
      StepKeepsFloor(w, e, id);
    }
  }

  // ---------------------------------------------------------------- key operations, under any frames

  const MAX_PN: Pn := [255, 255, 255, 255, 255, 255]

  /** The previous window is of key id `id` as well, and no number is left above it. */
  predicate Exhausted(w: Window, id: nat) {
    w.prevKeyid == id && w.prevPn == MAX_PN
  }

  lemma MaxIsGreatest(pn: Pn)
    ensures Value(pn) <= Value(MAX_PN) && (Value(pn) == Value(MAX_PN) <==> pn == MAX_PN)
  {
    SixBytes(pn);
    SixBytes(MAX_PN);
  }

  lemma StaysExhausted(w: Window, e: Event, id: nat)
    requires id < RSI_AES_CMAC && Exhausted(w, id) && StaysHeld([e], id) && !DisablesOther(e, id)
    ensures Exhausted(After(w, e), id) && !Rewinds(w, e, id) && !Overwrites(w, e, id)
  {
    assert e in [e];
    MaxIsGreatest(w.pn);
    if e.Receive? && w.key.Some? {
      var cur := FramePn(w.key.value.cipher, e.h);
      MaxIsGreatest(cur);
      MemcmpIsNumericOrder(cur, w.prevPn);
    }
  }

  /** The key operations of a run. */
  function Operations(es: seq<Event>): seq<Event> {
    if es == [] then [] else (if es[0].Receive? then [] else [es[0]]) + Operations(es[1..])
  }

  /** However frames arrive between these operations, numbers of key id `id` only increase. */
  ghost predicate SafeUnderAnyFrames(w: Window, floor: nat, ops: seq<Event>, id: nat, c: Cipher) {
    forall es: seq<Event> :: Operations(es) == ops ==> IncreasingAbove(floor, DeliveredNumbers(w, true, es, id, c))
  }

  lemma {:induction false} NoFrames(ops: seq<Event>)
    requires forall e :: e in ops ==> !e.Receive?
    ensures Operations(ops) == ops
  {
    if ops != [] {
      assert ops[0] in ops;
      NoFrames(ops[1..]);
    }
  }

  lemma {:induction false} EventsWithFrames(es: seq<Event>, e: Event)
    requires e in es
    ensures e.Receive? || e in Operations(es)
  {
    if e != es[0] {
      EventsWithFrames(es[1..], e);
    }
  }

  /** An operation in front of a run: nothing is delivered by it. */
  lemma OperationFirst(w: Window, held: bool, e: Event, es: seq<Event>, id: nat, c: Cipher)
    requires !e.Receive?
    ensures Operations([e] + es) == [e] + Operations(es)
    ensures DeliveredNumbers(w, held, [e] + es, id, c) == DeliveredNumbers(After(w, e), HeldAfter(held, e, id), es, id, c)
  {
    assert ([e] + es)[1..] == es;
  }

  lemma FrameFirst(w: Window, r: Event, es: seq<Event>, id: nat, c: Cipher)
    requires r.Receive?
    ensures Operations([r] + es) == Operations(es)
    ensures DeliveredNumbers(w, true, [r] + es, id, c)
            == (if Delivered(w, true, r, id) then [Number(w, c, r.h)] else []) + DeliveredNumbers(After(w, r), true, es, id, c)
  {
    assert ([r] + es)[1..] == es;
  }

  /** Number 0, received after an operation that leaves the held key `id` unguarded. */
  lemma ZeroPasses(w: Window, floor: nat, e: Event, rest: seq<Event>, id: nat, c: Cipher) returns (es: seq<Event>)
    requires id < 4 && !e.Receive? && HeldAfter(true, e, id) && !Guards(After(w, e), id) && Operations(rest) == rest
    ensures Operations(es) == [e] + rest && !IncreasingAbove(floor, DeliveredNumbers(w, true, es, id, c))
  {
    var v := After(w, e);
    var r := FrameZero(v, c, id);
    assert Delivered(v, true, r, id);
    FrameFirst(v, r, rest, id, c);
    OperationFirst(w, true, e, [r] + rest, id, c);
    es := [e] + ([r] + rest);
  }

  /** An operation in front of a run that breaks the order. */
  lemma OperationBefore(w: Window, floor: nat, e: Event, rest: seq<Event>, more: seq<Event>, id: nat, c: Cipher)
    returns (es: seq<Event>)
    requires !e.Receive? && HeldAfter(true, e, id) && Operations(more) == rest
    requires !IncreasingAbove(floor, DeliveredNumbers(After(w, e), true, more, id, c))
    ensures Operations(es) == [e] + rest && !IncreasingAbove(floor, DeliveredNumbers(w, true, es, id, c))
  {
    OperationFirst(w, true, e, more, id, c);
    es := [e] + more;
  }

  /** Right behind the disabling of another key any number passes. */
  lemma {:induction false} DisablingBreaks(w: Window, floor: nat, ops: seq<Event>, id: nat, c: Cipher)
    returns (es: seq<Event>)
    requires id < 4 && StaysHeld(ops, id) && !NoOtherDisabled(ops, id) && forall e :: e in ops ==> !e.Receive?
    ensures Operations(es) == ops && !IncreasingAbove(floor, DeliveredNumbers(w, true, es, id, c))
    decreases ops
  {
    var e, rest := ops[0], ops[1..];
    assert e in ops && forall x :: x in rest ==> x in ops;
    if DisablesOther(e, id) {
      NoFrames(rest);
      es := ZeroPasses(w, floor, e, rest, id, c);
    } else {
      assert StaysHeld(rest, id) && HeldAfter(true, e, id);
      var more := DisablingBreaks(After(w, e), floor, rest, id, c);
      es := OperationBefore(w, floor, e, rest, more, id, c);
    }
  }

  /** Right behind the installation of another key over the current one, a number passes that was
    * delivered before it, or any number. */
  lemma {:induction false} InstallingBreaks(w: Window, ops: seq<Event>, id: nat, c: Cipher) returns (es: seq<Event>)
    requires id < 4 && Watching(w) && w.key.value.keyidx == id && !Exhausted(w, id)
    requires StaysHeld(ops, id) && NoOtherDisabled(ops, id) && !NoOtherInstalled(ops, id)
    requires forall e :: e in ops ==> !e.Receive?
    ensures Operations(es) == ops && !IncreasingAbove(Value(w.pn), DeliveredNumbers(w, true, es, id, c))
    decreases ops
  {
    var e, rest := ops[0], ops[1..];
    assert e in ops && forall x :: x in rest ==> x in ops;
    NoFrames(rest);
    if !InstallsOther(e, id) {
      assert After(w, e) == w;
      var more := InstallingBreaks(w, rest, id, c);
      es := OperationBefore(w, Value(w.pn), e, rest, more, id, c);
    } else if w.prevKeyid != id {
      es := ZeroPasses(w, Value(w.pn), e, rest, id, c);
    } else {
      es := MaximumPassesAgain(w, e, rest, id, c);
    }
  }

  /** The greatest number, received before and after an installation over the current key. */
  lemma MaximumPassesAgain(w: Window, e: Event, rest: seq<Event>, id: nat, c: Cipher) returns (es: seq<Event>)
    requires id < 4 && Watching(w) && w.key.value.keyidx == id && w.prevKeyid == id && w.prevPn != MAX_PN
    requires InstallsOther(e, id) && Operations(rest) == rest
    ensures Operations(es) == [e] + rest
    ensures !IncreasingAbove(Value(w.pn), DeliveredNumbers(w, true, es, id, c))
  {
    var first := FrameOf(w, c, id, MAX_PN);
    var u := After(w, first);
    var v := After(u, e);
    var again := FrameOf(v, c, id, MAX_PN);
    MaxIsGreatest(w.pn);
    MaxIsGreatest(w.prevPn);
    MemcmpIsNumericOrder(MAX_PN, w.pn);
    MemcmpIsNumericOrder(MAX_PN, w.prevPn);
    assert Delivered(w, true, first, id) <==> Value(w.pn) < Value(MAX_PN);
    assert Delivered(v, true, again, id);
    FrameFirst(v, again, rest, id, c);
    OperationFirst(u, true, e, [again] + rest, id, c);
    FrameFirst(w, first, [e] + ([again] + rest), id, c);
    es := [first] + ([e] + ([again] + rest));
    var s := DeliveredNumbers(u, true, [e] + ([again] + rest), id, c);
    assert s[0] == Value(MAX_PN);
    assert ([Value(MAX_PN)] + s)[1..] == s;
  }

  /** After the group key `id` was installed, and for as long as it stays installed: whatever frames
    * arrive in between, the delivered numbers of the key only increase exactly when no other key,
    * pairwise or group, is disabled and no other group key is installed over it; except that an
    * installation does no harm if the previous window is of the same id and at the greatest number,
    * so that nothing passes any more. */
  lemma HeldKeyIff(w: Window, ops: seq<Event>, id: nat, c: Cipher)
    requires id < 4 && Watching(w) && w.key.value.keyidx == id
    requires StaysHeld(ops, id) && forall e :: e in ops ==> !e.Receive?
    ensures SafeUnderAnyFrames(w, Value(w.pn), ops, id, c)
            <==> NoOtherDisabled(ops, id) && (NoOtherInstalled(ops, id) || Exhausted(w, id))
  {
    if !NoOtherDisabled(ops, id) {
      var es := DisablingBreaks(w, Value(w.pn), ops, id, c);
    } else if !NoOtherInstalled(ops, id) && !Exhausted(w, id) {
      var es := InstallingBreaks(w, ops, id, c);
    } else {
      forall es: seq<Event> | Operations(es) == ops
        ensures IncreasingAbove(Value(w.pn), DeliveredNumbers(w, true, es, id, c))
      {
        forall e | e in es
          ensures e.Receive? || e in ops
        {
          EventsWithFrames(es, e);
        }
        UndisturbedIsSteady(w, es, id);
        ReplaySafe(w, true, es, id, c);
      }
    }
  }

  /** The same from the installation on, with the key's receive counter as floor. */
  lemma InstalledKeyIff(w: Window, k: Key, seqPn: Pn, ops: seq<Event>)
    requires Installs(Install(k, seqPn, true)) && k.keyidx < RSI_AES_CMAC
    requires StaysHeld(ops, k.keyidx) && forall e :: e in ops ==> !e.Receive?
    ensures SafeUnderAnyFrames(After(w, Install(k, seqPn, true)), Value(seqPn), ops, k.keyidx, k.cipher)
            <==> NoOtherDisabled(ops, k.keyidx) && (NoOtherInstalled(ops, k.keyidx) || Exhausted(w, k.keyidx))
  {
    HeldKeyIff(After(w, Install(k, seqPn, true)), ops, k.keyidx, k.cipher);
  }

  /** After any delivered frame of the current group key, disabling a pairwise key lets the same
    * frame through once more. */
  lemma DeliveredTwice(w: Window, id: nat, r: Event, k: Key)
    requires Watching(w) && w.key.value.keyidx == id && id < RSI_AES_CMAC
    requires Delivered(w, true, r, id) && k.pairwise && k.keyidx != RSI_AES_CMAC
    ensures var c := w.key.value.cipher;
            DeliveredNumbers(w, true, [r, Delete(k), r], id, c) == [Number(w, c, r.h), Number(w, c, r.h)]
  {
    var c := w.key.value.cipher;
    var v := After(w, r);
    var u := After(v, Delete(k));
    FrameFirst(u, r, [], id, c);
    OperationFirst(v, true, Delete(k), [r], id, c);
    FrameFirst(w, r, [Delete(k), r], id, c);
    assert [r] + [] == [r] && [Delete(k)] + [r] == [Delete(k), r] && [r] + [Delete(k), r] == [r, Delete(k), r];
  }

  /** Another group key installed over the current one, with no older window of its id: every frame
    * of the first key passes, any number of times. */
  lemma UnmatchedPasses(w: Window, id: nat, e: Event, r: Event, c: Cipher)
    requires Watching(w) && w.key.value.keyidx == id && id < RSI_AES_CMAC && w.prevKeyid != id
    requires InstallsOther(e, id) && r.Receive? && r.group && KeyId(r.h) == id
    ensures var n := Number(After(w, e), c, r.h);
            DeliveredNumbers(w, true, [e, r, r], id, c) == [n, n]
  {
    var v := After(w, e);
    assert Delivered(v, true, r, id) && After(v, r) == v;
    FrameFirst(v, r, [], id, c);
    FrameFirst(v, r, [r], id, c);
    OperationFirst(w, true, e, [r, r], id, c);
    assert [r] + [] == [r] && [r] + [r] == [r, r] && [e] + [r, r] == [e, r, r];
  }

  function HeaderFor(c: Cipher, id: nat, pn: Pn): Header
    requires id < 4
  {
    if c == CCMP then [pn[5], pn[4], 0, id * 64, pn[3], pn[2], pn[1], pn[0]]
    else [pn[4], 0, pn[5], id * 64, pn[3], pn[2], pn[1], pn[0]]
  }

  /** A rewinding installation does let a number pass again: the last accepted one. */
  lemma RewindAcceptsAgain(w: Window, e: Event, id: nat)
    requires id < 4 && Rewinds(w, e, id) && e.Install?
    ensures var v := After(w, e);
            var r := Receive(true, HeaderFor(e.k.cipher, id, w.pn));
            Accepted(v, r) && KeyId(r.h) == id && Value(FramePn(v.key.value.cipher, r.h)) == Value(w.pn)
  {
    var h := HeaderFor(e.k.cipher, id, w.pn);
    assert FramePn(e.k.cipher, h) == w.pn;
    MemcmpIsNumericOrder(w.pn, w.prevPn);
  }

  /** A step lowers the floor of a key id that it leaves matched exactly when it rewinds. */
  lemma FloorDropsIff(w: Window, e: Event, id: nat)
    requires !(Installs(e) && e.k.keyidx == id)
    ensures var f, g := Floor(w, id), Floor(After(w, e), id);
            Rewinds(w, e, id) <==> g.Some? && (f.Some? ==> g.value < f.value)
  {
    if !Rewinds(w, e, id) {
      StepKeepsFloor(w, e, id);
    }
  }

  /** A step keeps the window of a key id for every later frame exactly when it does not rewind. */
  lemma RewindIff(w: Window, e: Event, id: nat)
    requires id < 4 && Floor(w, id).Some? && !(Installs(e) && e.k.keyidx == id) && !e.Reset?
    ensures Rewinds(w, e, id) <==>
            exists r: Event :: Accepted(After(w, e), r) && KeyId(r.h) == id
                               && Value(FramePn(After(w, e).key.value.cipher, r.h)) <= Floor(w, id).value
  {
    if Rewinds(w, e, id) {
      RewindAcceptsAgain(w, e, id);
    } else {
      StepKeepsFloor(w, e, id);
      forall r: Event | Accepted(After(w, e), r) && KeyId(r.h) == id
        ensures Value(FramePn(After(w, e).key.value.cipher, r.h)) > Floor(w, id).value
      {
        assert r.Receive?;
        StepKeepsFloor(After(w, e), r, id);
      }
    }
  }

  // ---------------------------------------------------------------- the driver's code

  class VifPriv {
    var key: Option<Key>
    var rxBcmcPn: Pn
    var rxBcmcPnPrev: Pn
    var prevKeyid: nat
    var rxPnValid: bool

    ghost function Abs(): Window
      reads this
    {
      Window(key, rxBcmcPn, rxBcmcPnPrev, prevKeyid, rxPnValid)
    }

    /** The SET_KEY case of rsi_mac80211_set_key. `ccmpPn` and the TKIP counters are what
      * ieee80211_get_key_rx_seq reports; `halOk` is the outcome of rsi_hal_key_config. */
    method SetKey(k: Key, ccmpPn: Pn, iv32: nat, iv16: nat, halOk: bool)
      requires iv32 < 0x1_0000_0000 && iv16 < 0x1_0000
      modifies this
      ensures Abs() == After(old(Abs()), Install(k, if k.cipher == TKIP then CounterPn(iv32, iv16) else ccmpPn, halOk))
      ensures halOk && Tracks(k) && k.keyidx != RSI_AES_CMAC ==>
                && key == Some(k) && rxPnValid
                && Value(rxBcmcPn) == if k.cipher == TKIP then iv32 * 0x1_0000 + iv16 else Value(ccmpPn)
    {
      CounterNumber(iv32, iv16);
      if k.keyidx == RSI_AES_CMAC || !halOk || k.pairwise {
        return;
      }
      match k.cipher
      case TKIP =>
        rxBcmcPn := CounterPn(iv32, iv16);
        rxPnValid := true;
        key := Some(k);
      case CCMP | CCMP256 | AesCmac =>
        rxBcmcPn := ccmpPn;
        rxPnValid := true;
        key := Some(k);
      case Other =>
    }

    /** The DISABLE_KEY case. */
    method DisableKey(k: Key)
      modifies this
      ensures Abs() == After(old(Abs()), Delete(k))
      ensures k.keyidx != RSI_AES_CMAC ==> key == None && !rxPnValid
      ensures k.keyidx != RSI_AES_CMAC && old(key).Some? ==>
                prevKeyid == old(key).value.keyidx && rxBcmcPnPrev == old(rxBcmcPn)
    {
      if k.keyidx == RSI_AES_CMAC {
        return;
      }
      if key.Some? {
        prevKeyid := key.value.keyidx;
        rxBcmcPnPrev := rxBcmcPn;
      }
      rxBcmcPn := ZERO_PN;
      rxPnValid := false;
      key := None;
    }

    /** The window fields in rsi_mac80211_add_interface. */
    method ResetWindow()
      modifies this
      ensures Abs() == After(old(Abs()), Reset)
      ensures key == None && !rxPnValid && unchanged(`rxBcmcPnPrev) && unchanged(`prevKeyid)
    {
      rxBcmcPn := ZERO_PN;
      rxPnValid := false;
      key := None;
    }

    /** rsi_validate_pn, for the interface the frame belongs to. */
    method ValidatePn(group: bool, h: Header) returns (verdict: int)
      modifies this
      ensures verdict == Verdict(old(Abs()), Receive(group, h))
      ensures Abs() == After(old(Abs()), Receive(group, h))
    {
      if !group || key.None? || !rxPnValid {
        return 1;
      }
      var cur: Pn := if key.value.cipher == CCMP then CcmpPn(h) else TkipPn(h);
      var keyid := KeyId(h);
      if keyid == key.value.keyidx {
        if Memcmp(cur, rxBcmcPn) <= 0 {
          return -1;
        }
        rxBcmcPn := cur;
      } else if keyid == prevKeyid {
        if Memcmp(cur, rxBcmcPnPrev) <= 0 {
          return -1;
        }
        rxBcmcPnPrev := cur;
      }
      return 0;
    }

    /** The first frame after a successful installation: the check against the counter handed over. */
    method InstallThenValidate(k: Key, ccmpPn: Pn, iv32: nat, iv16: nat, h: Header) returns (verdict: int)
      requires iv32 < 0x1_0000_0000 && iv16 < 0x1_0000
      requires !k.pairwise && k.keyidx < RSI_AES_CMAC && KeyId(h) == k.keyidx
      modifies this
      ensures k.cipher == TKIP ==> (verdict < 0 <==> TkipNumber(h) <= iv32 * 0x1_0000 + iv16)
      ensures k.cipher == CCMP ==> (verdict < 0 <==> CcmpNumber(h) <= Value(ccmpPn))
    {
      SetKey(k, ccmpPn, iv32, iv16, true);
      DecodedNumber(h);
      if Tracks(k) {
        DropsIff(Abs(), k.keyidx, h);
      }
      verdict := ValidatePn(true, h);
    }
  }
}
