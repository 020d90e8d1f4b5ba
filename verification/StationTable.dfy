/** The table of associated stations: rsi_mac80211_sta_add and rsi_mac80211_sta_remove of
  * rsi/rsi_91x_mac80211.c and rsi_find_sta of rsi/rsi_91x_core.c, without CONFIG_STA_PLUS_AP. */
module StationTable {
  import opened Wrappers

  const RSI_MAX_ASSOC_STAS := 32
  const BROADCAST := 0xFFFF_FFFF_FFFF

  /** A mac80211 station: its address, and the object it stands for. */
  datatype Sta = Sta(addr: nat, handle: nat)
  datatype Slot = Slot(sta: Option<Sta>, staId: int)

  predicate Holds(s: seq<Slot>, i: int, addr: nat) {
    0 <= i < |s| && s[i].sta.Some? && s[i].sta.value.addr == addr
  }

  /** Occupied slots carry their own index and pairwise different addresses. */
  ghost predicate Consistent(s: seq<Slot>) {
    && (forall i :: 0 <= i < |s| && s[i].sta.Some? ==> s[i].staId == i)
    && (forall i, j, a :: Holds(s, i, a) && Holds(s, j, a) ==> i == j)
  }

  function Occupied(s: seq<Slot>): nat {
    if s == [] then 0 else Occupied(s[..|s| - 1]) + (if s[|s| - 1].sta.Some? then 1 else 0)
  }

  /** The abstract table: stations by address. */
  ghost function Members(s: seq<Slot>): (m: map<nat, Sta>)
    requires Consistent(s)
    ensures forall a :: a in m <==> exists i :: Holds(s, i, a)
    ensures forall i, a :: Holds(s, i, a) ==> a in m && m[a] == s[i].sta.value
  {
    var keys := set i | 0 <= i < |s| && s[i].sta.Some? :: s[i].sta.value.addr;
    assert forall i, a :: Holds(s, i, a) ==> a in keys;
    assert forall a :: a in keys ==> exists i :: Holds(s, i, a) by {
      forall a | a in keys
        ensures exists i :: Holds(s, i, a)
      {
        var i :| 0 <= i < |s| && s[i].sta.Some? && s[i].sta.value.addr == a;
        assert Holds(s, i, a);
      }
    }
    map a | a in keys :: var i :| Holds(s, i, a); s[i].sta.value
  }

  lemma {:induction false} OccupiedUpdate(s: seq<Slot>, i: nat, x: Slot)
    requires i < |s|
    ensures Occupied(s[i := x]) + (if s[i].sta.Some? then 1 else 0) == Occupied(s) + (if x.sta.Some? then 1 else 0)
  {
    var n := |s| - 1;
    if i == n {
      assert s[i := x][..n] == s[..n];
    } else {
      assert s[i := x][..n] == s[..n][i := x];
      OccupiedUpdate(s[..n], i, x);
    }
  }

  /** Fewer occupied slots than slots: one is free. */
  lemma {:induction false} FreeSlotExists(s: seq<Slot>)
    requires Occupied(s) < |s|
    ensures exists i :: 0 <= i < |s| && s[i].sta.None?
  {
    var n := |s| - 1;
    if s[n].sta.Some? {
      FreeSlotExists(s[..n]);
      var i :| 0 <= i < n && s[..n][i].sta.None?;
      assert s[i].sta.None?;
    }
  }

  /** A slot is free exactly when fewer stations are bound than there are slots. */
  lemma {:induction false} FreeSlotIff(s: seq<Slot>)
    requires Consistent(s)
    ensures Occupied(s) == |Members(s)| <= |s|
    ensures |Members(s)| < |s| <==> exists i :: 0 <= i < |s| && s[i].sta.None?
  {
    OccupiedIsSize(s);
    OccupiedAtMost(s);
    if Occupied(s) < |s| {
      FreeSlotExists(s);
    }
  }

  lemma {:induction false} OccupiedAtMost(s: seq<Slot>)
    ensures Occupied(s) <= |s|
    ensures (exists i :: 0 <= i < |s| && s[i].sta.None?) ==> Occupied(s) < |s|
  {
    if s != [] {
      var n := |s| - 1;
      OccupiedAtMost(s[..n]);
      if i :| 0 <= i < |s| && s[i].sta.None? && i < n {
        assert s[..n][i].sta.None?;
      }
    }
  }

  lemma {:induction false} NoneOccupied(s: seq<Slot>)
    requires forall i :: 0 <= i < |s| ==> s[i].sta.None?
    ensures Occupied(s) == 0
  {
    if s != [] {
      NoneOccupied(s[..|s| - 1]);
    }
  }

  /** Filling a free slot, or renewing the slot of the same address, adds one binding. */
  lemma PutBinds(s: seq<Slot>, i: nat, x: Sta)
    requires Consistent(s) && i < |s|
    requires s[i].sta.None? || s[i].sta.value.addr == x.addr
    requires s[i].sta.None? ==> x.addr !in Members(s)
    ensures var t := s[i := Slot(Some(x), i)];
            Consistent(t) && Members(t) == Members(s)[x.addr := x]
  {
    var t := s[i := Slot(Some(x), i)];
    assert forall j, a :: j != i ==> (Holds(t, j, a) <==> Holds(s, j, a));
    assert forall a :: Holds(t, i, a) <==> a == x.addr;
    assert forall j :: j != i ==> !Holds(s, j, x.addr) by {
      if s[i].sta.Some? {
        assert Holds(s, i, x.addr);
      }
    }
    assert Consistent(t);
    var m := Members(s)[x.addr := x];
    forall a
      ensures a in Members(t) <==> a in m
      ensures a in m ==> Members(t)[a] == m[a]
    {
      if a == x.addr {
        assert Holds(t, i, a);
      } else if a in Members(s) {
        var j :| Holds(s, j, a);
        assert j != i && Holds(t, j, a);
      }
    }
  }

  /** Clearing a slot removes its binding. */
  lemma ClearUnbinds(s: seq<Slot>, i: nat, addr: nat)
    requires Consistent(s) && Holds(s, i, addr)
    ensures var t := s[i := Slot(None, -1)];
            Consistent(t) && Members(t) == Members(s) - {addr}
  {
    var t := s[i := Slot(None, -1)];
    assert forall j, a :: Holds(t, j, a) <==> (j != i && Holds(s, j, a));
    forall a
      ensures a in Members(t) <==> a in Members(s) && a != addr
      ensures a in Members(t) ==> Members(t)[a] == Members(s)[a]
    {
      if a in Members(t) {
        var j :| Holds(t, j, a);
        assert Holds(s, j, a);
      }
    }
  }

  /** The bindings of a table without its last slot. */
  lemma MembersOfPrefix(s: seq<Slot>)
    requires Consistent(s) && s != []
    ensures var n := |s| - 1;
            && Consistent(s[..n])
            && (s[n].sta.None? ==> Members(s).Keys == Members(s[..n]).Keys)
            && (s[n].sta.Some? ==> var a := s[n].sta.value.addr;
                  a !in Members(s[..n]) && Members(s).Keys == Members(s[..n]).Keys + {a})
  {
    var n := |s| - 1;
    var t := s[..n];
    assert forall i, a :: Holds(t, i, a) <==> i < n && Holds(s, i, a);
    forall a
      ensures a in Members(s) <==> a in Members(t) || Holds(s, n, a)
    {
      if a in Members(s) {
        var i :| Holds(s, i, a);
        assert i == n || Holds(t, i, a);
      }
      if a in Members(t) {
        var i :| Holds(t, i, a);
        assert Holds(s, i, a);
      }
    }
    if s[n].sta.Some? {
      var a := s[n].sta.value.addr;
      assert Holds(s, n, a);
      assert forall i :: Holds(t, i, a) ==> Holds(s, i, a) && i == n;
    }
  }

  /** The occupied slots are as many as the addresses bound. */
  lemma {:induction false} OccupiedIsSize(s: seq<Slot>)
    requires Consistent(s)
    ensures Occupied(s) == |Members(s)|
  {
    if s == [] {
      assert forall a :: a !in Members(s);
    } else {
      MembersOfPrefix(s);
      OccupiedIsSize(s[..|s| - 1]);
    }
    assert |Members(s)| == |Members(s).Keys|;
  }

  // ---------------------------------------------------------------- runs, and the drift of the count

  /** The table and the count beside it. */
  datatype Assoc = Assoc(table: map<nat, Sta>, count: int)
  datatype Op = Add(sta: Sta) | Remove(addr: nat) | Restart

  const EMPTY := Assoc(map[], 0)

  function Apply(limit: nat, s: Assoc, op: Op): Assoc {
    match op
    case Add(x) =>
      if s.count >= limit then s
      else Assoc(s.table[x.addr := x], if x.addr in s.table then s.count else s.count + 1)
    case Remove(a) => Assoc(s.table - {a}, if a in s.table && s.count > 0 then s.count - 1 else s.count)
    case Restart => Assoc(map[], s.count)
  }

  function Run(limit: nat, s: Assoc, ops: seq<Op>): Assoc
    decreases ops
  {
    if ops == [] then s else Run(limit, Apply(limit, s, ops[0]), ops[1..])
  }

  /** A station would be refused although a slot is free. */
  predicate RefusesWrongly(limit: nat, s: Assoc) {
    |s.table| < limit <= s.count
  }

  /** Stations that were in the table when an AP restart emptied it. */
  function Abandoned(limit: nat, s: Assoc, ops: seq<Op>): nat
    decreases ops
  {
    if ops == [] then 0
    else (if ops[0].Restart? then |s.table| else 0) + Abandoned(limit, Apply(limit, s, ops[0]), ops[1..])
  }

  lemma ApplyDrifts(limit: nat, s: Assoc, op: Op)
    requires |s.table| <= s.count
    ensures var t := Apply(limit, s, op);
            t.count - |t.table| == s.count - |s.table| + (if op.Restart? then |s.table| else 0)
    ensures s.count <= limit ==> Apply(limit, s, op).count <= limit
  {
    match op
    case Add(x) =>
      if s.count < limit {
        assert s.table[x.addr := x].Keys == s.table.Keys + {x.addr};
      }
    case Remove(a) =>
      assert (s.table - {a}).Keys == s.table.Keys - {a};
      if a in s.table {
        assert |s.table.Keys - {a}| == |s.table.Keys| - 1;
      } else {
        assert s.table.Keys - {a} == s.table.Keys;
      }
    case Restart =>
  }

  /** The count exceeds the table by exactly what AP restarts left behind. */
  lemma {:induction false} DriftIsAbandoned(limit: nat, s: Assoc, ops: seq<Op>)
    requires |s.table| <= s.count
    ensures var t := Run(limit, s, ops);
            t.count - |t.table| == s.count - |s.table| + Abandoned(limit, s, ops)
    ensures s.count <= limit ==> Run(limit, s, ops).count <= limit
    decreases ops
  {
    if ops != [] {
      ApplyDrifts(limit, s, ops[0]);
      DriftIsAbandoned(limit, Apply(limit, s, ops[0]), ops[1..]);
    }
  }

  /** Stations with addresses not yet bound, as many as the count still admits. */
  lemma {:induction false} FillUp(limit: nat, s: Assoc, addr: nat) returns (ops: seq<Op>)
    requires |s.table| <= s.count <= limit && forall a :: a in s.table ==> a < addr
    ensures forall op :: op in ops ==> op.Add?
    ensures Run(limit, s, ops).count == limit
    decreases limit - s.count
  {
    if s.count == limit {
      ops := [];
    } else {
      var t := Apply(limit, s, Add(Sta(addr, 0)));
      ApplyDrifts(limit, s, Add(Sta(addr, 0)));
      var rest := FillUp(limit, t, addr + 1);
      ops := [Add(Sta(addr, 0))] + rest;
      assert ops[1..] == rest;
    }
  }

  lemma BoundOnAddresses(keys: set<nat>) returns (addr: nat)
    ensures forall a :: a in keys ==> a < addr
  {
    addr := 0;
    var rest := keys;
    while rest != {}
      invariant rest <= keys && forall a :: a in keys && a !in rest ==> a < addr
      decreases |rest|
    {
      var a :| a in rest;
      addr := if a < addr then addr else a + 1;
      rest := rest - {a};
    }
  }

  lemma {:induction false} AddsAbandonNothing(limit: nat, s: Assoc, ops: seq<Op>)
    requires forall op :: op in ops ==> op.Add?
    ensures Abandoned(limit, s, ops) == 0
    decreases ops
  {
    if ops != [] {
      AddsAbandonNothing(limit, Apply(limit, s, ops[0]), ops[1..]);
    }
  }

  /** From the empty table: no number of further stations ever meets a wrong refusal exactly when
    * every AP restart so far found the table empty. */
  lemma RefusesWronglyIff(limit: nat, ops: seq<Op>)
    ensures var s := Run(limit, EMPTY, ops);
            && (RefusesWrongly(limit, s) <==> |s.table| < limit <= |s.table| + Abandoned(limit, EMPTY, ops))
            && (Abandoned(limit, EMPTY, ops) == 0 <==>
                forall more: seq<Op> :: (forall op :: op in more ==> op.Add?) ==>
                  !RefusesWrongly(limit, Run(limit, s, more)))
  {
    var s := Run(limit, EMPTY, ops);
    DriftIsAbandoned(limit, EMPTY, ops);
    if Abandoned(limit, EMPTY, ops) == 0 {
      forall more: seq<Op> | forall op :: op in more ==> op.Add?
        ensures !RefusesWrongly(limit, Run(limit, s, more))
      {
        AddsAbandonNothing(limit, s, more);
        DriftIsAbandoned(limit, s, more);
      }
    } else {
      var addr := BoundOnAddresses(s.table.Keys);
      var more := FillUp(limit, s, addr);
      AddsAbandonNothing(limit, s, more);
      DriftIsAbandoned(limit, s, more);
      assert RefusesWrongly(limit, Run(limit, s, more));
    }
  }

  // ---------------------------------------------------------------- the driver's code

  class Common {
    const maxStations: nat
    const stations: array<Slot>
    var numStations: int

    ghost predicate Valid()
      reads this, stations
    {
      && maxStations <= RSI_MAX_ASSOC_STAS && stations.Length == RSI_MAX_ASSOC_STAS + 1
      && Consistent(stations[..maxStations])
      && Occupied(stations[..maxStations]) <= numStations
    }

    ghost function Table(): map<nat, Sta>
      reads this, stations
      requires Valid()
    {
      Members(stations[..maxStations])
    }

    ghost function Abs(): Assoc
      reads this, stations
      requires Valid()
    {
      Assoc(Table(), numStations)
    }

    lemma CountCovers()
      requires Valid()
      ensures |Table()| <= numStations
      ensures |Table()| < maxStations <==> exists i :: 0 <= i < maxStations && stations[i].sta.None?
    {
      var s := stations[..maxStations];
      FreeSlotIff(s);
      assert forall i :: 0 <= i < maxStations ==> s[i] == stations[i];
    }

    constructor (maxStations: nat)
      requires maxStations <= RSI_MAX_ASSOC_STAS
      ensures Valid() && Table() == map[] && numStations == 0 && this.maxStations == maxStations
      ensures fresh(stations)
    {
      this.maxStations := maxStations;
      stations := new Slot[RSI_MAX_ASSOC_STAS + 1](_ => Slot(None, 0));
      numStations := 0;
      new;
      NoneOccupied(stations[..maxStations]);
    }

    /** The search of rsi_mac80211_sta_add: the slot of the address, or the first free one. */
    method FindSlot(addr: nat) returns (i: nat, staExist: bool)
      requires Valid() && Occupied(stations[..maxStations]) < maxStations
      ensures i < maxStations
      ensures staExist <==> addr in Table()
      ensures if staExist then Holds(stations[..maxStations], i, addr) else stations[i].sta.None?
    {
      ghost var s := stations[..maxStations];
      FreeSlotExists(s);
      var freeIndex := -1;
      i, staExist := 0, false;
      while i < maxStations
        invariant 0 <= i <= maxStations && !staExist
        invariant -1 <= freeIndex < i
        invariant freeIndex >= 0 ==> s[freeIndex].sta.None?
        invariant freeIndex < 0 ==> forall j :: 0 <= j < i ==> s[j].sta.Some?
        invariant forall j :: 0 <= j < i ==> !Holds(s, j, addr)
      {
        if stations[i].sta.None? {
          if freeIndex < 0 {
            freeIndex := i;
          }
          i := i + 1;
          continue;
        }
        if stations[i].sta.value.addr == addr {
          assert Holds(s, i, addr);
          staExist := true;
          break;
        }
        i := i + 1;
      }
      if !staExist && freeIndex >= 0 {
        i := freeIndex;
      }
    }

    /** rsi_mac80211_sta_add in AP mode. `ok` is false for -EOPNOTSUPP. */
    method StaAdd(sta: Sta) returns (ok: bool)
      requires Valid()
      modifies this`numStations, stations
      ensures Valid()
      ensures ok <==> old(numStations) < maxStations
      ensures Abs() == Apply(maxStations, old(Abs()), Add(sta))
      ensures !ok && (exists i :: 0 <= i < maxStations && stations[i].sta.None?) <==>
              RefusesWrongly(maxStations, old(Abs()))
      ensures stations[RSI_MAX_ASSOC_STAS] == old(stations[RSI_MAX_ASSOC_STAS])
    {
      if numStations >= maxStations {
        CountCovers();
        return false;
      }
      ghost var s := stations[..maxStations];
      var i, staExist := FindSlot(sta.addr);
      PutBinds(s, i, sta);
      OccupiedUpdate(s, i, Slot(Some(sta), i));
      stations[i] := Slot(Some(sta), i);
      if !staExist {
        numStations := numStations + 1;
      }
      assert stations[..maxStations] == s[i := Slot(Some(sta), i)];
      return true;
    }

    /** rsi_mac80211_sta_remove in AP mode. */
    method StaRemove(addr: nat)
      requires Valid()
      modifies this`numStations, stations
      ensures Valid()
      ensures Abs() == Apply(maxStations, old(Abs()), Remove(addr))
    {
      ghost var s := stations[..maxStations];
      for i := 0 to maxStations
        invariant stations[..maxStations] == s && numStations == old(numStations)
        invariant forall j :: 0 <= j < i ==> !Holds(s, j, addr)
      {
        if stations[i].sta.None? {
          continue;
        }
        if stations[i].sta.value.addr == addr {
          RemoveAt(i, addr);
          return;
        }
      }
      assert addr !in Members(s);
      assert Members(s) - {addr} == Members(s);
    }

    method RemoveAt(i: nat, addr: nat)
      requires Valid() && i < maxStations && Holds(stations[..maxStations], i, addr)
      modifies this`numStations, stations
      ensures Valid()
      ensures Abs() == Apply(maxStations, old(Abs()), Remove(addr))
    {
      ghost var s := stations[..maxStations];
      ClearUnbinds(s, i, addr);
      OccupiedUpdate(s, i, Slot(None, -1));
      stations[i] := Slot(None, -1);
      assert stations[..maxStations] == s[i := Slot(None, -1)];
      if numStations > 0 {
        numStations := numStations - 1;
      }
    }

    /** Starting an AP interface empties the table but leaves the count, which from then on
      * exceeds it by as many stations more as were in the table. */
    method ApRestart()
      requires Valid()
      modifies stations
      ensures Valid() && Table() == map[]
      ensures Abs() == Apply(maxStations, old(Abs()), Restart)
      ensures numStations - |Table()| == old(numStations - |Table()|) + |old(Table())|
    {
      for i := 0 to maxStations
        invariant forall j :: 0 <= j < i ==> stations[j].sta.None?
        invariant forall j :: i <= j < stations.Length ==> stations[j] == old(stations[j])
      {
        stations[i] := stations[i].(sta := None);
      }
      NoneOccupied(stations[..maxStations]);
      assert 0 <= Occupied(old(stations[..maxStations]));
      var t := stations[..maxStations];
      assert forall i, a :: !Holds(t, i, a);
      assert Members(t) == map[];
    }

    /** rsi_find_sta: the index of the station, if any. */
    method FindSta(addr: nat) returns (r: Option<nat>)
      requires Valid()
      ensures addr != BROADCAST ==> (r.Some? <==> addr in Table())
      ensures addr != BROADCAST && r.Some? ==>
                r.value < maxStations && stations[r.value] == Slot(Some(Table()[addr]), r.value)
      ensures addr == BROADCAST ==> (r.Some? <==> Table() != map[])
      ensures addr == BROADCAST && r.Some? ==> r.value < maxStations && stations[r.value].sta.Some?
    {
      ghost var s := stations[..maxStations];
      for i := 0 to maxStations
        invariant forall j :: 0 <= j < i ==> !Holds(s, j, addr)
        invariant addr == BROADCAST ==> forall j :: 0 <= j < i ==> s[j].sta.None?
      {
        if stations[i].sta.None? {
          continue;
        }
        assert Holds(s, i, s[i].sta.value.addr);
        if addr == BROADCAST || stations[i].sta.value.addr == addr {
          return Some(i);
        }
      }
      assert addr == BROADCAST ==> forall i, a :: !Holds(s, i, a);
      return None;
    }
  }

  /** A station just added is found, as the object given, whether its address was new or not; and a
    * station just removed is not. */
  method AddThenFind(c: Common, sta: Sta) returns (added: bool, found: Option<nat>)
    requires c.Valid() && sta.addr != BROADCAST
    modifies c`numStations, c.stations
    ensures c.Valid() && (added <==> old(c.numStations) < c.maxStations)
    ensures added ==> found.Some? && found.value < c.maxStations && c.stations[found.value] == Slot(Some(sta), found.value)
  {
    added := c.StaAdd(sta);
    found := c.FindSta(sta.addr);
  }

  method RemoveThenFind(c: Common, addr: nat) returns (found: Option<nat>)
    requires c.Valid() && addr != BROADCAST
    modifies c`numStations, c.stations
    ensures c.Valid() && found == None
  {
    c.StaRemove(addr);
    found := c.FindSta(addr);
  }

  /** One slot, one station, an AP restart: the next station is refused with the slot free. */
  method RefusedAfterRestart() returns (first: bool, second: bool, c: Common)
    ensures fresh(c) && c.Valid() && c.maxStations == 1
    ensures first && !second && c.Table() == map[] && c.stations[0].sta.None?
  {
    c := new Common(1);
    first := c.StaAdd(Sta(1, 0));
    c.ApRestart();
    second := c.StaAdd(Sta(2, 0));
    c.CountCovers();
  }
}
