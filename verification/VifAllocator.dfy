/** The virtual-interface allocator of rsi/rsi_91x_mac80211.c with CONFIG_STA_PLUS_AP, for STATION
  * and AP interfaces and p2p disabled. */
module VifAllocator {
  const RSI_MAX_VIFS := 2

  datatype IfType = STATION | AP
  /** The vap_modes bits. */
  datatype VapMode = VapMode(apAlone: bool, staAlone: bool)
  const NO_VAP := VapMode(false, false)

  datatype AddResult = Added | NotSupported | MaxVifs | CapabilitiesFailed

  class Vif {
    const kind: IfType
    var vapId: nat

    constructor (kind: IfType)
      ensures this.kind == kind
    {
      this.kind := kind;
      vapId := 0;
    }
  }

  ghost function Count(s: seq<Vif?>): nat {
    if s == [] then 0 else Count(s[..|s| - 1]) + (if s[|s| - 1] != null then 1 else 0)
  }

  lemma {:induction false} CountUpdate(s: seq<Vif?>, i: nat, v: Vif?)
    requires i < |s|
    ensures Count(s[i := v]) + (if s[i] != null then 1 else 0) == Count(s) + (if v != null then 1 else 0)
  {
    var n := |s| - 1;
    if i == n {
      assert s[i := v][..n] == s[..n];
    } else {
      assert s[i := v][..n] == s[..n][i := v];
      CountUpdate(s[..n], i, v);
    }
  }

  lemma {:induction false} CountZero(s: seq<Vif?>)
    ensures Count(s) == 0 <==> forall i :: 0 <= i < |s| ==> s[i] == null
  {
    if s != [] {
      CountZero(s[..|s| - 1]);
    }
  }

  predicate IsStation(s: seq<Vif?>, i: int) {
    0 <= i < |s| && s[i] != null && s[i].kind == STATION
  }

  /** The union of the live interface types. */
  ghost predicate ModeOf(s: seq<Vif?>, m: VapMode) {
    && (m.staAlone <==> exists i :: 0 <= i < |s| && s[i] != null && s[i].kind == STATION)
    && (m.apAlone <==> exists i :: 0 <= i < |s| && s[i] != null && s[i].kind == AP)
  }

  class Adapter {
    const vifs: array<Vif?>
    var vifBitMap: set<nat>
    var scNvifs: int
    var vapMode: VapMode

    ghost predicate Valid()
      reads this, vifs, vifs[..]
    {
      && vifs.Length == RSI_MAX_VIFS
      && (forall i :: i in vifBitMap <==> 0 <= i < RSI_MAX_VIFS && vifs[i] != null)
      && (forall i :: 0 <= i < RSI_MAX_VIFS && vifs[i] != null ==> vifs[i].vapId == i)
      && scNvifs == Count(vifs[..])
      && ModeOf(vifs[..], vapMode)
      && (forall i, j :: IsStation(vifs[..], i) && IsStation(vifs[..], j) ==> i == j)
    }

    constructor ()
      ensures Valid() && fresh(vifs) && Count(vifs[..]) == 0
    {
      vifs := new Vif?[RSI_MAX_VIFS](_ => null);
      vifBitMap, scNvifs, vapMode := {}, 0, NO_VAP;
      new;
      CountZero(vifs[..]);
    }

    /** rsi_mac80211_add_interface. An interface gets the lowest free slot, or is refused. When
      * the device rejects the capabilities the slot stays taken. The bookkeeping stays intact
      * exactly when the interface was not already registered, or was refused. */
    method AddInterface(vif: Vif, capsOk: bool) returns (r: AddResult)
      requires Valid()
      modifies this, vifs, vif`vapId
      ensures r == NotSupported <==> vif.kind == STATION && old(vapMode.staAlone)
      ensures r == MaxVifs <==> r != NotSupported && old(Count(vifs[..])) == RSI_MAX_VIFS
      ensures r in {NotSupported, MaxVifs} ==> vifs[..] == old(vifs[..]) && unchanged(this) && unchanged(vif)
      ensures r in {Added, CapabilitiesFailed} ==>
                && (r == Added <==> capsOk)
                && vif.vapId < RSI_MAX_VIFS && old(vifs[..])[vif.vapId] == null
                && (forall i :: 0 <= i < vif.vapId ==> old(vifs[..])[i] != null)
                && vifs[..] == old(vifs[..])[vif.vapId := vif]
      ensures Valid() <==> r in {NotSupported, MaxVifs} || vif !in old(vifs[..])
    {
      ghost var s := vifs[..];
      if vif.kind == STATION && vapMode.staAlone {
        return NotSupported;
      }
      CountFull(s);
      var i := 0;
      while i < RSI_MAX_VIFS
        invariant 0 <= i <= RSI_MAX_VIFS
        invariant forall j :: 0 <= j < i ==> s[j] != null
      {
        if i !in vifBitMap {
          break;
        }
        i := i + 1;
      }
      if i == RSI_MAX_VIFS {
        return MaxVifs;
      }
      CountUpdate(s, i, vif);
      vif.vapId := i;
      vifs[i] := vif;
      scNvifs := scNvifs + 1;
      vifBitMap := vifBitMap + {i};
      if vif.kind == STATION {
        vapMode := vapMode.(staAlone := true);
      } else {
        vapMode := vapMode.(apAlone := true);
      }
      assert vifs[..] == s[i := vif];
      if vif in s {
        var j :| 0 <= j < |s| && s[j] == vif;
        assert vifs[j] == vif && vifs[j].vapId != j;
      }
      r := if capsOk then Added else CapabilitiesFailed;
    }

    /** rsi_mac80211_remove_interface: undoes a registration, and ignores an unknown interface. */
    method RemoveInterface(vif: Vif)
      requires Valid()
      modifies this, vifs
      ensures Valid()
      ensures vif !in old(vifs[..]) ==> vifs[..] == old(vifs[..])
      ensures vif in old(vifs[..]) ==> vifs[..] == old(vifs[..])[vif.vapId := null]
    {
      ghost var s := vifs[..];
      if scNvifs <= 0 {
        CountZero(s);
        return;
      }
      for i := 0 to RSI_MAX_VIFS
        invariant forall j :: 0 <= j < i ==> s[j] != vif
        invariant vifs[..] == s && unchanged(this)
      {
        if vifs[i] == vif {
          CountUpdate(s, i, null);
          scNvifs := scNvifs - 1;
          vifs[i] := null;
          assert vifs[..] == s[i := null];
          assert forall j :: IsStation(vifs[..], j) ==> IsStation(s, j);
          vifBitMap := vifBitMap - {vif.vapId};
          RecomputeMode();
          return;
        }
      }
    }

    /** The loop that rebuilds `vap_mode` from the remaining interfaces. */
    method RecomputeMode()
      requires vifs.Length == RSI_MAX_VIFS
      modifies this`vapMode
      ensures ModeOf(vifs[..], vapMode)
    {
      vapMode := NO_VAP;
      for k := 0 to RSI_MAX_VIFS
        invariant ModeOf(vifs[..k], vapMode)
      {
        assert vifs[..k + 1] == vifs[..k] + [vifs[k]];
        assert vifs[..k + 1][k] == vifs[k];
        if vifs[k] == null {
          continue;
        } else if vifs[k].kind == STATION {
          vapMode := vapMode.(staAlone := true);
        } else {
          vapMode := vapMode.(apAlone := true);
        }
      }
      assert vifs[..RSI_MAX_VIFS] == vifs[..];
    }
  }

  lemma CountFull(s: seq<Vif?>)
    requires |s| == RSI_MAX_VIFS
    ensures Count(s) == RSI_MAX_VIFS <==> forall i :: 0 <= i < |s| ==> s[i] != null
  {
    assert s[..1][..0] == [];
    assert Count(s[..1]) == if s[0] != null then 1 else 0;
  }
}
