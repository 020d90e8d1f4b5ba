/** The in-place removal of Country elements from a beacon: rsi_prepare_beacon of
  * rsi/rsi_91x_hal.c. */
module BeaconFilter {
  import opened Wrappers

  type byte = n: nat | n < 256

  const BEACON_COUNTRY_IE: byte := 7
  const HEADER := 36  // MAC header and fixed parameters

  /** An information element; its length field is one byte. */
  datatype Ie = Ie(id: byte, body: seq<byte>)

  predicate WellFormed(ies: seq<Ie>) {
    forall i :: 0 <= i < |ies| ==> |ies[i].body| < 256
  }

  function Bytes(ie: Ie): seq<byte>
    requires |ie.body| < 256
  {
    [ie.id, |ie.body|] + ie.body
  }

  function Serialize(ies: seq<Ie>): seq<byte>
    requires WellFormed(ies)
  {
    if ies == [] then [] else Bytes(ies[0]) + Serialize(ies[1..])
  }

  function Kept(ies: seq<Ie>): (r: seq<Ie>)
    ensures WellFormed(ies) ==> WellFormed(r)
    ensures |r| <= |ies|
  {
    if ies == [] then [] else (if ies[0].id == BEACON_COUNTRY_IE then [] else [ies[0]]) + Kept(ies[1..])
  }

  /** Kept drops the elements with id 7 and no other, and keeps the rest as often as they come, */
  lemma {:induction false} KeptCounts(ies: seq<Ie>, x: Ie)
    ensures multiset(Kept(ies))[x] == if x.id == 7 then 0 else multiset(ies)[x]
    decreases ies
  {
    if ies != [] {
      KeptCounts(ies[1..], x);
      assert ies == [ies[0]] + ies[1..];
    }
  }

  /** in their order, being the same on the parts of a list as on the whole. */
  lemma {:induction false} KeptInOrder(a: seq<Ie>, b: seq<Ie>)
    ensures Kept(a + b) == Kept(a) + Kept(b)
    decreases a
  {
    if a == [] {
      assert a + b == b;
    } else {
      KeptInOrder(a[1..], b);
      assert (a + b)[0] == a[0] && (a + b)[1..] == a[1..] + b;
      Concat(if a[0].id == BEACON_COUNTRY_IE then [] else [a[0]], Kept(a[1..]), Kept(b));
    }
  }

  /** The descriptor's length word: the length or-ed with the data queue number 5 << 12. */
  function DescWord(len: nat): (w: nat)
    requires len < 0x1000
    ensures w % 0x1000 == len && w / 0x1000 == 5
  {
    len + 0x5000
  }

  // ---------------------------------------------------------------- the loop, as steps on values

  datatype Loop = Loop(data: seq<byte>, index: byte)

  predicate Exited(s: Loop) { s.index >= |s.data| }

  /** One iteration; None where it would read beyond the frame. The index is eight bits wide. */
  function Step(s: Loop): Option<Loop> {
    if s.index + 1 >= |s.data| || s.index + 2 + s.data[s.index + 1] > |s.data| then None
    else
      var end := s.index + 2 + s.data[s.index + 1];
      if s.data[s.index] == BEACON_COUNTRY_IE then Some(Loop(s.data[..s.index] + s.data[end..], s.index))
      else Some(Loop(s.data, end % 256))
  }

  ghost predicate Reaches(s: Loop, t: Loop, n: nat)
    decreases n
  {
    if n == 0 then s == t else !Exited(s) && Step(s).Some? && Reaches(Step(s).value, t, n - 1)
  }

  lemma ReachesVia(s: Loop, u: Loop, t: Loop, n: nat)
    requires !Exited(s) && Step(s) == Some(u) && Reaches(u, t, n)
    ensures Reaches(s, t, n + 1)
  {}

  lemma StepOnElement(done: seq<byte>, ie: Ie, tail: seq<byte>)
    requires |done| < 256 && |ie.body| < 256
    requires ie.id == BEACON_COUNTRY_IE || |done + Bytes(ie)| < 256
    ensures var s := Loop(done + (Bytes(ie) + tail), |done|);
            var next := if ie.id == BEACON_COUNTRY_IE then done else done + Bytes(ie);
            !Exited(s) && Step(s) == Some(Loop(next + tail, |next|))
  {
    var d := done + (Bytes(ie) + tail);
    assert d[|done|] == ie.id && d[|done| + 1] == |ie.body|;
    var end := |done| + 2 + |ie.body|;
    assert d[..|done|] == done && d[end..] == tail;
    assert d == done + Bytes(ie) + tail;
  }

  lemma {:induction false} FiltersWhenShort(done: seq<byte>, ies: seq<Ie>, out: seq<byte>)
    requires WellFormed(ies) && done + Serialize(Kept(ies)) == out && |out| <= 255
    ensures Reaches(Loop(done + Serialize(ies), |done|), Loop(out, |out|), |ies|)
    decreases ies
  {
    if ies == [] {
      assert done + Serialize(ies) == done;
    } else {
      var next := if ies[0].id == BEACON_COUNTRY_IE then done else done + Bytes(ies[0]);
      KeptNext(done, ies);
      FiltersWhenShort(next, ies[1..], out);
      FirstStep(done, ies, next, out, |ies| - 1);
    }
  }

  /** The iteration on the first element, put in front of the rest of the run. */
  lemma FirstStep(done: seq<byte>, ies: seq<Ie>, next: seq<byte>, out: seq<byte>, n: nat)
    requires WellFormed(ies) && ies != [] && |done| < 256 && |next| < 256 && |out| < 256
    requires next == if ies[0].id == BEACON_COUNTRY_IE then done else done + Bytes(ies[0])
    requires Reaches(Loop(next + Serialize(ies[1..]), |next|), Loop(out, |out|), n)
    ensures Reaches(Loop(done + Serialize(ies), |done|), Loop(out, |out|), n + 1)
  {
    StepOnElement(done, ies[0], Serialize(ies[1..]));
    ReachesVia(Loop(done + Serialize(ies), |done|), Loop(next + Serialize(ies[1..]), |next|), Loop(out, |out|), n);
  }

  lemma KeptNext(done: seq<byte>, ies: seq<Ie>)
    requires WellFormed(ies) && ies != []
    ensures var next := if ies[0].id == BEACON_COUNTRY_IE then done else done + Bytes(ies[0]);
            next + Serialize(Kept(ies[1..])) == done + Serialize(Kept(ies))
  {
    if ies[0].id == BEACON_COUNTRY_IE {
      CountryDropped(ies);
    } else {
      KeptFirst(ies);
      Concat(done, Bytes(ies[0]), Serialize(Kept(ies[1..])));
    }
  }

  lemma CountryDropped(ies: seq<Ie>)
    requires ies != [] && ies[0].id == BEACON_COUNTRY_IE
    ensures Kept(ies) == Kept(ies[1..])
  {}

  lemma KeptFirst(ies: seq<Ie>)
    requires WellFormed(ies) && ies != [] && ies[0].id != BEACON_COUNTRY_IE
    ensures Serialize(Kept(ies)) == Bytes(ies[0]) + Serialize(Kept(ies[1..]))
  {
    assert Kept(ies)[1..] == Kept(ies[1..]);
  }

  /** The loop started on a beacon ends, after some number of iterations, with this frame. */
  ghost predicate EndsWith(frame: seq<byte>, out: seq<byte>) {
    exists index: byte, n: nat :: Reaches(Loop(frame, HEADER), Loop(out, index), n) && Exited(Loop(out, index))
  }

  /** The loop ends with exactly the Country elements removed if and only if the remaining frame is
    * at most 255 bytes long. */
  lemma FiltersIff(header: seq<byte>, ies: seq<Ie>)
    requires |header| == HEADER && WellFormed(ies)
    ensures var out := header + Serialize(Kept(ies));
            |out| <= 255 <==> EndsWith(header + Serialize(ies), out)
  {
    var out := header + Serialize(Kept(ies));
    if |out| <= 255 {
      FiltersWhenShort(header, ies, out);
      var index: byte := |out|;
      assert Reaches(Loop(header + Serialize(ies), HEADER), Loop(out, index), |ies|);
      assert Exited(Loop(out, index));
    }
  }

  // ---------------------------------------------------------------- the driver's code

  class Beacon {
    const data: array<byte>
    var len: nat
    var descWord0: nat

    constructor (frame: seq<byte>)
      requires |frame| < 0x1000
      ensures len == |frame| && data[..] == frame && descWord0 == DescWord(len)
      ensures fresh(data)
    {
      data := new byte[|frame|](i requires 0 <= i < |frame| => frame[i]);
      len := |frame|;
      descWord0 := DescWord(|frame|);
    }

    /** memmove over the element at `at`, and the shorter length. */
    method Cut(at: nat, n: nat)
      requires at + n <= len <= data.Length && len < 0x1000
      modifies this, data
      ensures len == old(len) - n && descWord0 == DescWord(len)
      ensures data[..at] == old(data[..at])
      ensures data[at..len] == old(data[at + n..len])
      ensures data[old(len)..] == old(data[len..])
    {
      ghost var before := data[..];
      var rest := len - (at + n);
      forall k | 0 <= k < rest {
        data[at + k] := data[at + n + k];
      }
      assert data[at..at + rest] == before[at + n..len];
      assert data[len..] == before[len..];
      len := len - n;
      descWord0 := DescWord(len);
    }

    /** The Country branch: the element at `index` goes, what is before and behind it stays. */
    method CutElement(index: nat, ieLen: nat, ghost rest: seq<Ie>, ghost out: seq<byte>)
      requires AtElement(data[..], len, index, rest, out) && index < len < 0x1000
      requires rest[0].id == BEACON_COUNTRY_IE && ieLen == |rest[0].body|
      modifies this, data
      ensures AtElement(data[..], len, index, rest[1..], out)
      ensures len == old(len) - ieLen - 2 && descWord0 == DescWord(len)
      ensures data[..HEADER] == old(data[..HEADER]) && data[old(len)..] == old(data[len..])
    {
      ghost var before := data[..];
      FirstElement(before, len, index, rest, out);
      CountryDropped(rest);
      Cut(index, ieLen + 2);
      assert data[HEADER..index] == data[..index][HEADER..] == before[..index][HEADER..] == before[HEADER..index];
      assert data[..HEADER] == data[..index][..HEADER] == before[..index][..HEADER];
    }

    /** One iteration of the element loop; `next` is the new index. */
    method FilterElement(index: nat, ghost rest: seq<Ie>, ghost out: seq<byte>) returns (next: nat)
      requires AtElement(data[..], len, index, rest, out) && index < len < 0x1000
      requires descWord0 == DescWord(len) && HEADER + |out| <= 255
      modifies this, data
      ensures AtElement(data[..], len, next, rest[1..], out)
      ensures len - next < old(len) - index && len <= old(len) && descWord0 == DescWord(len)
      ensures descWord0 % 0x1000 == len && descWord0 / 0x1000 == 5
      ensures data[..HEADER] == old(data[..HEADER]) && data[old(len)..] == old(data[len..])
    {
      FirstElement(data[..], len, index, rest, out);
      var ieId: nat, ieLen: nat := data[index], data[index + 1];
      if ieId == BEACON_COUNTRY_IE {
        CutElement(index, ieLen, rest, out);
        next := index;
      } else {
        next := KeepElement(index, ieLen, rest, out);
      }
    }

    /** The other branch: the index moves on, in eight bits. */
    method KeepElement(index: nat, ieLen: nat, ghost rest: seq<Ie>, ghost out: seq<byte>) returns (next: nat)
      requires AtElement(data[..], len, index, rest, out) && index < len
      requires rest[0].id != BEACON_COUNTRY_IE && ieLen == |rest[0].body| && HEADER + |out| <= 255
      ensures AtElement(data[..], len, next, rest[1..], out) && index < next
    {
      ElementKept(data[..], len, index, rest, out);
      next := (index + 2 + ieLen) % 256;
    }

    /** The element loop: `ies` are the elements the beacon carries. */
    method RemoveCountry(ghost ies: seq<Ie>)
      requires HEADER <= len <= data.Length && len < 0x1000 && descWord0 == DescWord(len)
      requires WellFormed(ies) && data[HEADER..len] == Serialize(ies)
      requires HEADER + |Serialize(Kept(ies))| <= 255
      modifies this, data
      ensures HEADER <= len <= old(len)
      ensures data[..HEADER] == old(data[..HEADER])
      ensures data[HEADER..len] == Serialize(Kept(ies))
      ensures data[old(len)..] == old(data[len..])
      ensures descWord0 % 0x1000 == len && descWord0 / 0x1000 == 5
    {
      ghost var rest, out := ies, Serialize(Kept(ies));
      var index: nat := HEADER;
      ghost var tail := data[len..];
      while index < len
        invariant len <= old(len) && AtElement(data[..], len, index, rest, out)
        invariant data[..HEADER] == old(data[..HEADER])
        invariant data[old(len)..] == tail
        invariant descWord0 == DescWord(len)
        decreases len - index
      {
        ghost var behind := data[len..];
        ghost var length := len;
        index := FilterElement(index, rest, out);
        assert data[old(len)..] == data[length..][old(len) - length..] == behind[old(len) - length..];
        rest := rest[1..];
      }
      assert rest == [];
    }
  }

  /** The loop's view of the frame: `rest` is unread from `index` on, and what is kept before
    * `index` followed by what will be kept of `rest` is `out`. */
  ghost predicate AtElement(d: seq<byte>, len: nat, index: nat, rest: seq<Ie>, out: seq<byte>) {
    && HEADER <= index <= len <= |d|
    && WellFormed(rest) && (index < len ==> rest != [])
    && d[index..len] == Serialize(rest)
    && d[HEADER..index] + Serialize(Kept(rest)) == out
  }

  lemma FirstElement(d: seq<byte>, len: nat, index: nat, rest: seq<Ie>, out: seq<byte>)
    requires AtElement(d, len, index, rest, out) && index < len
    ensures index + 2 + |rest[0].body| <= len
    ensures d[index] == rest[0].id && d[index + 1] == |rest[0].body|
    ensures d[index..index + 2 + |rest[0].body|] == Bytes(rest[0])
    ensures d[index + 2 + |rest[0].body|..len] == Serialize(rest[1..])
    ensures index + 2 + |rest[0].body| < len ==> rest[1..] != []
  {
    var tail := d[index..len];
    assert tail == Bytes(rest[0]) + Serialize(rest[1..]);
    assert d[index] == tail[0] && d[index + 1] == tail[1];
    assert tail[..2 + |rest[0].body|] == Bytes(rest[0]);
    assert tail[2 + |rest[0].body|..] == Serialize(rest[1..]);
  }

  lemma ElementKept(d: seq<byte>, len: nat, index: nat, rest: seq<Ie>, out: seq<byte>)
    requires AtElement(d, len, index, rest, out) && index < len && rest[0].id != BEACON_COUNTRY_IE
    ensures AtElement(d, len, index + 2 + |rest[0].body|, rest[1..], out)
    ensures index + 2 + |rest[0].body| <= HEADER + |out|
  {
    FirstElement(d, len, index, rest, out);
    KeptFirst(rest);
    var next := index + 2 + |rest[0].body|;
    assert d[HEADER..next] == d[HEADER..index] + d[index..next];
    Concat(d[HEADER..index], Bytes(rest[0]), Serialize(Kept(rest[1..])));
  }
}
