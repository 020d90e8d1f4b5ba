/** Block transfers through the 64 KiB window register: rsi_sdio_write_data_region and
  * rsi_sdio_read_data_region of rsi/rsi_91x_nlsock.c. */
module WindowedMemory {
  import opened Arith

  type byte = n: nat | n < 256

  const WINDOW := 0x1_0000
  const MEMORY := 0x1_0000_0000
  const SD_REQUEST_MASTER := 0x1_0000

  datatype Status = Success | NoMemory | IoError

  /** Memory with `data` at `base`, and nothing else changed. */
  function Written(mem: seq<byte>, base: nat, data: seq<byte>): (r: seq<byte>)
    requires base + |data| <= |mem|
    ensures |r| == |mem|
  {
    mem[..base] + data + mem[base + |data|..]
  }

  lemma WriteInPieces(mem: seq<byte>, base: nat, a: seq<byte>, b: seq<byte>)
    requires base + |a| + |b| <= |mem|
    ensures Written(Written(mem, base, a), base + |a|, b) == Written(mem, base, a + b)
  {}

  /** Equal outside `base..base + n`. */
  predicate SameOutside(x: seq<byte>, y: seq<byte>, base: nat, n: nat)
    requires base + n <= |x|
  {
    |x| == |y| && x[..base] == y[..base] && x[base + n..] == y[base + n..]
  }

  function Least(a: nat, b: nat): nat { if a <= b then a else b }

  /** Every block of the transfer stays inside one window. */
  predicate InWindows(base: nat, n: nat, block: nat)
    requires 0 < block
    decreases n
  {
    n == 0 ||
    (base % WINDOW + Least(block, n) <= WINDOW && InWindows(base + Least(block, n), n - Least(block, n), block))
  }

  /** A block size that divides the window and a base aligned to it keep every block in a window. */
  lemma {:induction false} AlignedStaysInWindows(base: nat, n: nat, block: nat)
    requires 0 < block && WINDOW % block == 0 && base % block == 0
    ensures InWindows(base, n, block)
    decreases n
  {
    if n > 0 {
      ModOfMod(base, WINDOW, block);
      MultiplesGap(base % WINDOW, WINDOW, block);
      if block <= n {
        AddMultiple(base, block, 1);
        AlignedStaysInWindows(base + block, n - block, block);
      }
    }
  }

  function Fault(ok: bool): nat { if ok then 0 else 1 }

  // ---------------------------------------------------------------- the device

  class Device {
    var mem: seq<byte>
    var msword: nat
    ghost var faults: nat   // operations that have failed

    ghost predicate Valid()
      reads this
    {
      |mem| == MEMORY && msword < WINDOW
    }

    /** master_access_msword: set the window, or fail. */
    method MasterAccessMsword(msb: nat) returns (ok: bool)
      requires Valid() && msb < WINDOW
      modifies this`msword, this`faults
      ensures Valid() && (ok ==> msword == msb) && faults == old(faults) + Fault(ok)
    {
      ok := *;
      faults := faults + Fault(ok);
      if ok {
        msword := msb;
      }
    }

    /** write_reg_multiple to the window: a failed transfer may leave anything in its range, and a
      * transfer beyond the end of the window anything anywhere. */
    method WriteRegMultiple(addr: nat, buf: seq<byte>) returns (ok: bool)
      requires Valid() && SD_REQUEST_MASTER <= addr < SD_REQUEST_MASTER + WINDOW
      modifies this`mem, this`faults
      ensures Valid() && faults == old(faults) + Fault(ok)
      ensures addr - SD_REQUEST_MASTER + |buf| <= WINDOW ==>
                var a := msword * WINDOW + addr - SD_REQUEST_MASTER;
                && a + |buf| <= MEMORY
                && (ok ==> mem == Written(old(mem), a, buf))
                && SameOutside(old(mem), mem, a, |buf|)
    {
      ok := *;
      faults := faults + Fault(ok);
      if addr - SD_REQUEST_MASTER + |buf| <= WINDOW {
        if ok {
          mem := Written(mem, msword * WINDOW + addr - SD_REQUEST_MASTER, buf);
        }
      } else {
        var any: seq<byte> := *;
        if |any| == MEMORY {
          mem := any;
        }
      }
    }

    /** read_reg_multiple from the window; beyond its end anything may be read. */
    method ReadRegMultiple(addr: nat, n: nat) returns (ok: bool, buf: seq<byte>)
      requires Valid() && SD_REQUEST_MASTER <= addr < SD_REQUEST_MASTER + WINDOW
      modifies this`faults
      ensures |buf| == n && faults == old(faults) + Fault(ok)
      ensures addr - SD_REQUEST_MASTER + n <= WINDOW ==>
                var a := msword * WINDOW + addr - SD_REQUEST_MASTER;
                a + n <= MEMORY && (ok ==> buf == mem[a..a + n])
    {
      ok := *;
      faults := faults + Fault(ok);
      if addr - SD_REQUEST_MASTER + n <= WINDOW {
        var a := msword * WINDOW + addr - SD_REQUEST_MASTER;
        buf := mem[a..a + n];
      } else {
        var b: byte := *;
        buf := seq<byte>(n, _ => b);
      }
    }
  }

  // ---------------------------------------------------------------- the driver's code

  /** `k` blocks, counted one by one. */
  function Blocks(k: nat, block: nat): nat {
    if k == 0 then 0 else Blocks(k - 1, block) + block
  }

  lemma {:induction false} BlocksIsProduct(k: nat, block: nat)
    ensures Blocks(k, block) == k * block
  {
    if k > 0 {
      BlocksIsProduct(k - 1, block);
      assert k * block == (k - 1) * block + block;
    }
  }

  lemma {:induction false} BlocksMonotone(i: nat, k: nat, block: nat)
    requires i <= k
    ensures Blocks(i, block) <= Blocks(k, block)
  {
    if i < k {
      BlocksMonotone(i, k - 1, block);
    }
  }

  lemma WholeBlocks(block: nat, n: nat)
    requires 0 < block
    ensures n == Blocks(n / block, block) + n % block
  {
    BlocksIsProduct(n / block, block);
    DivModSum(n, block);
  }

  /** The registers of a transfer agree with the flat address `cur` it has reached. */
  ghost predicate Aimed(dev: Device, cur: nat, baseAddress: nat, msb: nat)
    reads dev
  {
    && dev.Valid() && cur <= MEMORY
    && baseAddress == cur % MEMORY && msb == baseAddress / WINDOW
    && (cur < MEMORY ==> dev.msword == msb)
  }

  /** A block ends in the window it begins in, or in the next one. */
  lemma NextWindow(cur: nat, block: nat)
    requires block < WINDOW && cur + block <= MEMORY
    ensures (cur + block) / WINDOW == cur / WINDOW || (cur + block) / WINDOW == cur / WINDOW + 1
    ensures cur < MEMORY ==> cur / WINDOW < WINDOW
    ensures cur + block < MEMORY ==> (cur + block) / WINDOW < WINDOW
  {}

  /** Advance by one block: the window follows when the address leaves it. */
  method Advance(dev: Device, ghost cur: nat, block: nat, baseAddress: nat, msb: nat)
    returns (ok: bool, baseAddress': nat, msb': nat)
    requires Aimed(dev, cur, baseAddress, msb) && 0 < block < WINDOW
    requires cur + block <= MEMORY
    modifies dev`msword, dev`faults
    ensures dev.Valid() && dev.faults == old(dev.faults) + Fault(ok)
    ensures ok ==> Aimed(dev, cur + block, baseAddress', msb')
  {
    NextWindow(cur, block);
    ok, msb' := true, msb;
    baseAddress' := (baseAddress + block) % MEMORY;
    if baseAddress' / WINDOW != msb' {
      msb' := (msb' + 1) % WINDOW;
      ok := dev.MasterAccessMsword(msb');
    }
  }

  /** Write one piece of `data` behind what is already written; `fits` is that it stays in a window. */
  method WritePiece(dev: Device, ghost mem0: seq<byte>, base: nat, data: seq<byte>, offset: nat, end: nat,
                    baseAddress: nat, ghost msb: nat, ghost fits: bool)
    returns (ok: bool)
    requires |mem0| == MEMORY && base + |data| <= MEMORY && offset < end <= |data|
    requires Aimed(dev, base + offset, baseAddress, msb)
    requires fits ==> (base + offset) % WINDOW + (end - offset) <= WINDOW
    requires fits ==> dev.mem == Written(mem0, base, data[..offset])
    modifies dev`mem, dev`faults
    ensures dev.Valid() && dev.faults == old(dev.faults) + Fault(ok)
    ensures fits ==> SameOutside(mem0, dev.mem, base, |data|)
    ensures fits && ok ==> dev.mem == Written(mem0, base, data[..end])
  {
    ghost var before := dev.mem;
    var piece := data[offset..end];
    FlatAddress(base + offset, baseAddress, msb);
    ok := dev.WriteRegMultiple(baseAddress % WINDOW + SD_REQUEST_MASTER, piece);
    if fits {
      PieceWritten(mem0, before, dev.mem, base, data, offset, end, ok);
    }
  }

  /** Window and offset in it make up the flat address. */
  lemma FlatAddress(cur: nat, baseAddress: nat, msb: nat)
    requires cur < MEMORY && baseAddress == cur % MEMORY && msb == baseAddress / WINDOW
    ensures msb * WINDOW + baseAddress % WINDOW == cur && baseAddress % WINDOW == cur % WINDOW
  {}

  /** A piece put behind what is already written. */
  lemma PieceWritten(mem0: seq<byte>, before: seq<byte>, after: seq<byte>, base: nat, data: seq<byte>,
                     offset: nat, end: nat, ok: bool)
    requires base + |data| <= |mem0| && offset <= end <= |data|
    requires before == Written(mem0, base, data[..offset])
    requires ok ==> after == Written(before, base + offset, data[offset..end])
    requires SameOutside(before, after, base + offset, end - offset)
    ensures SameOutside(mem0, after, base, |data|)
    ensures ok ==> after == Written(mem0, base, data[..end])
  {
    WriteInPieces(mem0, base, data[..offset], data[offset..end]);
    assert data[..offset] + data[offset..end] == data[..end];
    WrittenOutside(mem0, base, data[..offset], |data|);
    OutsidePiece(mem0, before, after, base, |data|, base + offset, end - offset);
  }

  lemma WrittenOutside(mem: seq<byte>, base: nat, part: seq<byte>, n: nat)
    requires |part| <= n && base + n <= |mem|
    ensures SameOutside(mem, Written(mem, base, part), base, n)
  {}

  lemma OutsidePiece(x: seq<byte>, y: seq<byte>, z: seq<byte>, base: nat, n: nat, a: nat, m: nat)
    requires base + n <= |x| && base <= a && a + m <= base + n
    requires SameOutside(x, y, base, n) && SameOutside(y, z, a, m)
    ensures SameOutside(x, z, base, n)
  {
    assert z[..base] == z[..a][..base] == y[..a][..base] == y[..base];
    assert z[base + n..] == z[a + m..][base + n - a - m..] == y[a + m..][base + n - a - m..] == y[base + n..];
  }

  /** State of a write that has reached `offset`. */
  ghost predicate Writing(dev: Device, mem0: seq<byte>, base: nat, data: seq<byte>, block: nat, offset: nat,
                          baseAddress: nat, msb: nat)
    requires 0 < block
    reads dev
  {
    && |mem0| == MEMORY && base + |data| <= MEMORY && offset <= |data|
    && Aimed(dev, base + offset, baseAddress, msb)
    && (InWindows(base, |data|, block) ==>
          && InWindows(base + offset, |data| - offset, block)
          && dev.mem == Written(mem0, base, data[..offset]))
  }

  /** A write changes nothing outside the transfer, as long as no block leaves its window. */
  ghost predicate Contained(dev: Device, mem0: seq<byte>, base: nat, data: seq<byte>, block: nat)
    requires 0 < block
    reads dev
  {
    && dev.Valid() && |mem0| == MEMORY && base + |data| <= MEMORY
    && (InWindows(base, |data|, block) ==> SameOutside(mem0, dev.mem, base, |data|))
  }

  /** One iteration: write a block, and let the window follow. */
  method WriteBlock(dev: Device, ghost mem0: seq<byte>, base: nat, data: seq<byte>, block: nat, offset: nat,
                    baseAddress: nat, msb: nat)
    returns (ok: bool, baseAddress': nat, msb': nat)
    requires 0 < block < WINDOW && Writing(dev, mem0, base, data, block, offset, baseAddress, msb)
    requires offset + block <= |data|
    modifies dev
    ensures Contained(dev, mem0, base, data, block) && dev.faults == old(dev.faults) + Fault(ok)
    ensures ok ==> Writing(dev, mem0, base, data, block, offset + block, baseAddress', msb')
  {
    ghost var fits := InWindows(base, |data|, block);
    baseAddress', msb' := baseAddress, msb;
    ok := WritePiece(dev, mem0, base, data, offset, offset + block, baseAddress, msb, fits);
    if ok {
      ok, baseAddress', msb' := Advance(dev, base + offset, block, baseAddress, msb);
    }
  }

  /** The loop of rsi_sdio_write_data_region over the whole blocks. */
  method WriteBlocks(dev: Device, base: nat, data: seq<byte>, block: nat, numBlocks: nat)
    returns (ok: bool, offset: nat, baseAddress: nat, msb: nat)
    requires 0 < block < WINDOW && Writing(dev, dev.mem, base, data, block, 0, base, base / WINDOW)
    requires Blocks(numBlocks, block) <= |data|
    modifies dev
    ensures Contained(dev, old(dev.mem), base, data, block) && dev.faults == old(dev.faults) + Fault(ok)
    ensures ok ==> offset == Blocks(numBlocks, block)
    ensures ok ==> Writing(dev, old(dev.mem), base, data, block, offset, baseAddress, msb)
  {
    ghost var mem0 := dev.mem;
    ok, baseAddress, msb, offset := true, base, base / WINDOW, 0;
    for ii := 0 to numBlocks
      invariant offset == Blocks(ii, block) && ok
      invariant dev.faults == old(dev.faults)
      invariant Writing(dev, mem0, base, data, block, offset, baseAddress, msb)
      invariant Contained(dev, mem0, base, data, block)
    {
      BlocksMonotone(ii + 1, numBlocks, block);
      ok, baseAddress, msb := WriteBlock(dev, mem0, base, data, block, offset, baseAddress, msb);
      if !ok {
        return;
      }
      offset := offset + block;
    }
  }

  /** The rest behind the whole blocks. */
  method WriteRest(dev: Device, ghost mem0: seq<byte>, base: nat, data: seq<byte>, block: nat, offset: nat,
                   baseAddress: nat, ghost msb: nat)
    returns (ok: bool)
    requires 0 < block < WINDOW && Writing(dev, mem0, base, data, block, offset, baseAddress, msb)
    requires |data| - offset == |data| % block && Contained(dev, mem0, base, data, block)
    modifies dev`mem, dev`faults
    ensures Contained(dev, mem0, base, data, block) && dev.faults == old(dev.faults) + Fault(ok)
    ensures ok && InWindows(base, |data|, block) ==> dev.mem == Written(mem0, base, data)
  {
    ok := true;
    assert data[..|data|] == data;
    if |data| % block != 0 {
      ok := WritePiece(dev, mem0, base, data, offset, |data|, baseAddress, msb, InWindows(base, |data|, block));
    }
  }

  /** rsi_sdio_write_data_region. When every block stays inside a window, success writes exactly the
    * data at the flat address, and failure touches nothing outside it. */
  method WriteDataRegion(dev: Device, base: nat, data: seq<byte>, block: nat, allocOk: bool) returns (r: Status)
    requires dev.Valid() && base < MEMORY && base + |data| <= MEMORY && 0 < block < WINDOW
    modifies dev
    ensures dev.Valid()
    ensures r == if !allocOk then NoMemory else if dev.faults == old(dev.faults) then Success else IoError
    ensures r == Success && InWindows(base, |data|, block) ==> dev.mem == Written(old(dev.mem), base, data)
    ensures InWindows(base, |data|, block) ==> SameOutside(old(dev.mem), dev.mem, base, |data|)
  {
    WholeBlocks(block, |data|);
    ghost var mem0 := dev.mem;
    WrittenOutside(mem0, base, [], |data|);
    assert Written(mem0, base, []) == mem0;
    if !allocOk {
      return NoMemory;
    }
    var ok := dev.MasterAccessMsword(base / WINDOW);
    if !ok {
      return IoError;
    }
    var offset, baseAddress, msb;
    ok, offset, baseAddress, msb := WriteBlocks(dev, base, data, block, |data| / block);
    if ok {
      ok := WriteRest(dev, mem0, base, data, block, offset, baseAddress, msb);
    }
    return if ok then Success else IoError;
  }

  /** Read one block into the temporary buffer, and copy that whole buffer out. */
  method ReadPiece(dev: Device, ghost base: nat, offset: nat, n: nat, block: nat, buffer: array<byte>,
                   baseAddress: nat, ghost msb: nat)
    returns (ok: bool)
    requires Aimed(dev, base + offset, baseAddress, msb)
    requires 0 < n <= block && base + offset + n <= MEMORY && offset + block <= buffer.Length
    modifies buffer, dev`faults
    ensures dev.faults == old(dev.faults) + Fault(ok)
    ensures buffer[..offset] == old(buffer[..offset])
    ensures buffer[offset + block..] == old(buffer[offset + block..])
    ensures ok && (base + offset) % WINDOW + n <= WINDOW ==>
              buffer[offset..offset + n] == dev.mem[base + offset..base + offset + n]
    ensures ok ==> forall k :: offset + n <= k < offset + block ==> buffer[k] == 0
  {
    var got;
    ok, got := dev.ReadRegMultiple(baseAddress % WINDOW + SD_REQUEST_MASTER, n);
    if !ok {
      return;
    }
    var tempBuf := TempBlock(got, block);
    CopyOut(buffer, offset, tempBuf);
    assert buffer[offset..offset + n] == got;
  }

  /** The zeroed temporary buffer, filled from the front. */
  method TempBlock(got: seq<byte>, block: nat) returns (temp: seq<byte>)
    requires |got| <= block
    ensures |temp| == block
    ensures forall k :: 0 <= k < block ==> temp[k] == if k < |got| then got[k] else 0
  {
    var tempBuf := new byte[block](i => 0);
    for k := 0 to |got|
      invariant forall j :: 0 <= j < block ==> tempBuf[j] == if j < k then got[j] else 0
    {
      tempBuf[k] := got[k];
    }
    temp := tempBuf[..];
  }

  /** memcpy of the whole temporary buffer. */
  method CopyOut(buffer: array<byte>, offset: nat, temp: seq<byte>)
    requires offset + |temp| <= buffer.Length
    modifies buffer
    ensures buffer[..offset] == old(buffer[..offset])
    ensures forall k :: offset <= k < offset + |temp| ==> buffer[k] == temp[k - offset]
    ensures buffer[offset + |temp|..] == old(buffer[offset + |temp|..])
  {
    forall k | 0 <= k < |temp| {
      buffer[offset + k] := temp[k];
    }
  }

  function RoundedUp(n: nat, block: nat): nat
    requires 0 < block
  {
    n / block * block + (if n % block != 0 then block else 0)
  }

  lemma RoundedUpCovers(n: nat, block: nat)
    requires 0 < block
    ensures n <= RoundedUp(n, block)
    ensures n - n % block + block <= RoundedUp(n, block) || n % block == 0
  {
    DivModSum(n, block);
  }

  lemma DivModSum(n: nat, block: nat)
    requires 0 < block
    ensures n == n / block * block + n % block
  {}

  /** State of a read that has reached `offset`. */
  ghost predicate Reading(dev: Device, base: nat, n: nat, block: nat, buffer: array<byte>, offset: nat,
                          baseAddress: nat, msb: nat)
    requires 0 < block
    reads dev, buffer
  {
    && base + n <= MEMORY && offset <= n <= buffer.Length
    && Aimed(dev, base + offset, baseAddress, msb)
    && (InWindows(base, n, block) ==>
          && InWindows(base + offset, n - offset, block)
          && buffer[..offset] == dev.mem[base..base + offset])
  }

  /** One iteration: read a block, and let the window follow. */
  method ReadBlock(dev: Device, ghost base: nat, ghost n: nat, block: nat, buffer: array<byte>, offset: nat,
                   baseAddress: nat, msb: nat)
    returns (ok: bool, baseAddress': nat, msb': nat)
    requires 0 < block < WINDOW && Reading(dev, base, n, block, buffer, offset, baseAddress, msb)
    requires offset + block <= n
    modifies dev`msword, dev`faults, buffer
    ensures dev.Valid() && dev.faults == old(dev.faults) + Fault(ok)
    ensures ok ==> Reading(dev, base, n, block, buffer, offset + block, baseAddress', msb')
  {
    baseAddress', msb' := baseAddress, msb;
    ok := ReadPiece(dev, base, offset, block, block, buffer, baseAddress, msb);
    if ok {
      assert buffer[..offset + block] == buffer[..offset] + buffer[offset..offset + block];
      ok, baseAddress', msb' := Advance(dev, base + offset, block, baseAddress, msb);
    }
  }

  /** The loop of rsi_sdio_read_data_region over the whole blocks. */
  method ReadBlocks(dev: Device, base: nat, ghost n: nat, block: nat, numBlocks: nat, buffer: array<byte>)
    returns (ok: bool, offset: nat, baseAddress: nat, msb: nat)
    requires 0 < block < WINDOW && Reading(dev, base, n, block, buffer, 0, base, base / WINDOW)
    requires Blocks(numBlocks, block) <= n
    modifies dev`msword, dev`faults, buffer
    ensures dev.Valid() && dev.faults == old(dev.faults) + Fault(ok)
    ensures ok ==> offset == Blocks(numBlocks, block)
    ensures ok ==> Reading(dev, base, n, block, buffer, offset, baseAddress, msb)
  {
    ok, baseAddress, msb, offset := true, base, base / WINDOW, 0;
    for ii := 0 to numBlocks
      invariant offset == Blocks(ii, block)
      invariant Reading(dev, base, n, block, buffer, offset, baseAddress, msb)
      invariant ok && dev.faults == old(dev.faults)
    {
      BlocksMonotone(ii + 1, numBlocks, block);
      ok, baseAddress, msb := ReadBlock(dev, base, n, block, buffer, offset, baseAddress, msb);
      if !ok {
        return;
      }
      offset := offset + block;
    }
  }

  /** The rest behind the whole blocks: its bytes, then zeros up to a whole block. */
  method ReadRest(dev: Device, ghost base: nat, n: nat, block: nat, buffer: array<byte>, offset: nat,
                  baseAddress: nat, ghost msb: nat)
    returns (ok: bool)
    requires 0 < block < WINDOW && Reading(dev, base, n, block, buffer, offset, baseAddress, msb)
    requires n - offset == n % block && (n % block != 0 ==> offset + block <= buffer.Length)
    modifies buffer, dev`faults
    ensures dev.Valid() && dev.faults == old(dev.faults) + Fault(ok)
    ensures ok && InWindows(base, n, block) ==> buffer[..n] == dev.mem[base..base + n]
    ensures ok && n % block != 0 ==>
              forall k :: n <= k < n - n % block + block ==> k < buffer.Length && buffer[k] == 0
  {
    ok := true;
    if n % block != 0 {
      ok := ReadPiece(dev, base, offset, n % block, block, buffer, baseAddress, msb);
      assert buffer[..n] == buffer[..offset] + buffer[offset..n];
    }
  }

  /** rsi_sdio_read_data_region. The last copy is a whole block, so the buffer must hold a whole
    * number of blocks; the bytes behind the data are zero. The data is that of the flat memory when
    * every block stays inside a window. */
  method ReadDataRegion(dev: Device, base: nat, n: nat, block: nat, buffer: array<byte>, allocOk: bool)
    returns (r: Status)
    requires dev.Valid() && base < MEMORY && base + n <= MEMORY && 0 < block < WINDOW
    requires RoundedUp(n, block) <= buffer.Length
    modifies dev`msword, dev`faults, buffer
    ensures dev.Valid()
    ensures r == if !allocOk then NoMemory else if dev.faults == old(dev.faults) then Success else IoError
    ensures n <= buffer.Length
    ensures r == Success && InWindows(base, n, block) ==> buffer[..n] == dev.mem[base..base + n]
    ensures r == Success && n % block != 0 ==>
              forall k :: n <= k < n - n % block + block ==> k < buffer.Length && buffer[k] == 0
  {
    WholeBlocks(block, n);
    RoundedUpCovers(n, block);
    if !allocOk {
      return NoMemory;
    }
    var ok := dev.MasterAccessMsword(base / WINDOW);
    if !ok {
      return IoError;
    }
    var offset, baseAddress, msb;
    ok, offset, baseAddress, msb := ReadBlocks(dev, base, n, block, n / block, buffer);
    if ok {
      ok := ReadRest(dev, base, n, block, buffer, offset, baseAddress, msb);
    }
    return if ok then Success else IoError;
  }

  /** What one block size wrote, another block size reads back, when every block of both transfers
    * stays inside a window; so always for an aligned base and block sizes that divide the window. */
  method WriteThenRead(dev: Device, base: nat, data: seq<byte>, writeBlock: nat, readBlock: nat, buffer: array<byte>,
                       allocOk: bool)
    returns (r: Status)
    requires dev.Valid() && base < MEMORY && base + |data| <= MEMORY
    requires 0 < writeBlock < WINDOW && 0 < readBlock < WINDOW && RoundedUp(|data|, readBlock) <= buffer.Length
    modifies dev, buffer
    ensures |data| <= buffer.Length
    ensures allocOk && dev.faults == old(dev.faults) ==> r == Success
    ensures r == Success && InWindows(base, |data|, writeBlock) && InWindows(base, |data|, readBlock) ==>
              buffer[..|data|] == data && dev.mem == Written(old(dev.mem), base, data)
    ensures WINDOW % writeBlock == 0 && base % writeBlock == 0 ==> InWindows(base, |data|, writeBlock)
    ensures WINDOW % readBlock == 0 && base % readBlock == 0 ==> InWindows(base, |data|, readBlock)
  {
    if WINDOW % writeBlock == 0 && base % writeBlock == 0 {
      AlignedStaysInWindows(base, |data|, writeBlock);
    }
    if WINDOW % readBlock == 0 && base % readBlock == 0 {
      AlignedStaysInWindows(base, |data|, readBlock);
    }
    RoundedUpCovers(|data|, readBlock);
    r := WriteDataRegion(dev, base, data, writeBlock, allocOk);
    if r == Success {
      r := ReadDataRegion(dev, base, |data|, readBlock, buffer, allocOk);
    }
  }
}
