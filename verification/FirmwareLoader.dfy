/** The ping-pong firmware download of rsi/rsi_91x_hal.c: ping_pong_write, auto_fw_upgrade and
  * rsi_secure_firmware_load. */
module FirmwareLoader {
  type byte = n: nat | n < 256

  const FLASH_WRITE_CHUNK_SIZE := 4096
  const MAX_FLASH_FILE_SIZE := 400 * 1024
  const FW_IMAGE_MIN_ADDRESS := 68 * 1024
  const FLASH_SECTOR_SIZE := 4096
  const FLASHING_START_ADDRESS := 16
  const U32 := 0x1_0000_0000

  datatype Buffer = Ping | Pong
  datatype Event =
    | Filled(buf: Buffer, chunk: seq<byte>)   // the host wrote a chunk into a buffer
    | Announced(buf: Buffer)                  // the device reported a buffer available
    | Eof                                     // the device confirmed the end of the file

  function Other(b: Buffer): Buffer { if b == Ping then Pong else Ping }

  /** All bytes written, in order. */
  function Image(log: seq<Event>): seq<byte> {
    if log == [] then []
    else
      var last := log[|log| - 1];
      Image(log[..|log| - 1]) + (if last.Filled? then last.chunk else [])
  }

  /** Every fill after the first directly follows the device's announcement of that buffer, and
    * every announcement is of the buffer opposite to the one just filled. */
  predicate Disciplined(log: seq<Event>) {
    && (forall i :: 0 < i < |log| && log[i].Filled? ==> log[i - 1] == Announced(log[i].buf))
    && (forall i :: 0 <= i < |log| && log[i].Announced? ==>
          i > 0 && log[i - 1].Filled? && log[i].buf == Other(log[i - 1].buf))
  }

  lemma ImageAppend(log: seq<Event>, e: Event)
    ensures Image(log + [e]) == Image(log) + (if e.Filled? then e.chunk else [])
  {
    assert (log + [e])[..|log|] == log;
  }

  /** Consecutive fills use opposite buffers. */
  lemma FillsAlternate(log: seq<Event>, i: nat)
    requires Disciplined(log) && 2 <= i < |log| && log[i].Filled?
    ensures log[i - 2].Filled? && log[i - 2].buf == Other(log[i].buf)
  {
    assert log[i - 1] == Announced(log[i].buf);
    assert log[i - 2].Filled? && log[i - 1].buf == Other(log[i - 2].buf);
  }

  /** The log is ready for another fill of `b`. */
  predicate ReadyFor(log: seq<Event>, b: Buffer) {
    Disciplined(log) && (log != [] ==> log[|log| - 1] == Announced(b))
  }

  /** A fill of the announced buffer, and the announcement of the other one. */
  lemma PairKeepsDiscipline(log: seq<Event>, b: Buffer, chunk: seq<byte>)
    requires ReadyFor(log, b)
    ensures Disciplined(log + [Filled(b, chunk)]) && Image(log + [Filled(b, chunk)]) == Image(log) + chunk
    ensures ReadyFor(log + [Filled(b, chunk), Announced(Other(b))], Other(b))
    ensures Image(log + [Filled(b, chunk), Announced(Other(b))]) == Image(log) + chunk
  {
    var filled := log + [Filled(b, chunk)];
    ImageAppend(log, Filled(b, chunk));
    FillKeepsDiscipline(log, b, chunk);
    ImageAppend(filled, Announced(Other(b)));
    AnswerKeepsDiscipline(filled, b);
    assert filled + [Announced(Other(b))] == log + [Filled(b, chunk), Announced(Other(b))];
  }

  lemma FillKeepsDiscipline(log: seq<Event>, b: Buffer, chunk: seq<byte>)
    requires ReadyFor(log, b)
    ensures Disciplined(log + [Filled(b, chunk)])
  {}

  lemma AnswerKeepsDiscipline(log: seq<Event>, b: Buffer)
    requires Disciplined(log) && log != [] && log[|log| - 1].Filled? && log[|log| - 1].buf == b
    ensures ReadyFor(log + [Announced(Other(b))], Other(b))
  {}

  predicate ChunksFit(log: seq<Event>) {
    forall i :: 0 <= i < |log| && log[i].Filled? ==> 0 < |log[i].chunk| <= FLASH_WRITE_CHUNK_SIZE
  }

  /** The first `written` bytes are on the device, which waits for buffer `cmd`. */
  predicate Progress(log: seq<Event>, content: seq<byte>, written: nat, cmd: Buffer) {
    ReadyFor(log, cmd) && ChunksFit(log) && written <= |content| && Image(log) == content[..written]
  }

  /** The buffers were used as announced, for chunks of legal size that make up a prefix of the
    * content. */
  predicate Orderly(log: seq<Event>, content: seq<byte>) {
    Disciplined(log) && ChunksFit(log) && Image(log) <= content
  }

  /** A chunk, answered or not, leaves the log orderly; answered, it is progress. */
  lemma ChunkSent(log: seq<Event>, content: seq<byte>, written: nat, size: nat, cmd: Buffer)
    requires Progress(log, content, written, cmd)
    requires 0 < size <= FLASH_WRITE_CHUNK_SIZE && written + size <= |content|
    ensures var chunk := content[written..written + size];
            && Orderly(log, content) && Orderly(log + [Filled(cmd, chunk)], content)
            && Progress(log + [Filled(cmd, chunk), Announced(Other(cmd))], content, written + size, Other(cmd))
  {
    var chunk := content[written..written + size];
    assert content[..written + size] == content[..written] + chunk;
    PairKeepsDiscipline(log, cmd, chunk);
  }

  lemma ProgressIsOrderly(log: seq<Event>, content: seq<byte>, written: nat, cmd: Buffer)
    requires Progress(log, content, written, cmd)
    ensures Orderly(log, content) && (written == |content| ==> Image(log) == content)
  {}

  lemma EofIsOrderly(log: seq<Event>, content: seq<byte>)
    requires Orderly(log, content)
    ensures Orderly(log + [Eof], content) && Image(log + [Eof]) == Image(log)
  {
    ImageAppend(log, Eof);
    EofKeepsDiscipline(log);
  }

  lemma EofKeepsDiscipline(log: seq<Event>)
    requires Disciplined(log) && ChunksFit(log)
    ensures Disciplined(log + [Eof]) && ChunksFit(log + [Eof])
  {}

  function Fault(ok: bool): nat { if ok then 0 else 1 }

  /** The first event, if any, is a fill of `b`. */
  predicate Begins(log: seq<Event>, b: Buffer) {
    log != [] ==> log[0].Filled? && log[0].buf == b
  }

  class Adapter {
    var log: seq<Event>
    ghost var faults: nat   // device operations that have failed

    /** bl_cmd: succeeds only when the device answers with the expected announcement. */
    method BlCmdAvail(expected: Buffer) returns (ok: bool)
      modifies this
      ensures log == if ok then old(log) + [Announced(expected)] else old(log)
      ensures faults == old(faults) + Fault(ok)
    {
      ok := *;
      faults := faults + Fault(ok);
      if ok {
        log := log + [Announced(expected)];
      }
    }

    method BlCmdEof() returns (ok: bool)
      modifies this
      ensures log == if ok then old(log) + [Eof] else old(log)
      ensures faults == old(faults) + Fault(ok)
    {
      ok := *;
      faults := faults + Fault(ok);
      if ok {
        log := log + [Eof];
      }
    }

    /** The host's write of one chunk into a device buffer. */
    method LoadBuffer(b: Buffer, chunk: seq<byte>) returns (ok: bool)
      modifies this
      ensures log == if ok then old(log) + [Filled(b, chunk)] else old(log)
      ensures faults == old(faults) + Fault(ok)
    {
      ok := *;
      faults := faults + Fault(ok);
      if ok {
        log := log + [Filled(b, chunk)];
      }
    }

    /** ping_pong_write */
    method PingPongWrite(cmd: Buffer, chunk: seq<byte>) returns (ok: bool)
      modifies this
      ensures ok ==> log == old(log) + [Filled(cmd, chunk), Announced(Other(cmd))]
      ensures !ok ==> log == old(log) || log == old(log) + [Filled(cmd, chunk)]
      ensures faults == old(faults) + Fault(ok)
      ensures old(log) <= log && (old(log) == [] ==> Begins(log, cmd))
    {
      ok := LoadBuffer(cmd, chunk);
      if ok {
        ok := BlCmdAvail(if cmd == Ping then Pong else Ping);
      }
    }

    /** Send the next chunk of the content. */
    method SendChunk(content: seq<byte>, written: nat, size: nat, cmd: Buffer) returns (ok: bool)
      requires Progress(log, content, written, cmd)
      requires 0 < size <= FLASH_WRITE_CHUNK_SIZE && written + size <= |content|
      modifies this
      ensures Orderly(log, content) && faults == old(faults) + Fault(ok)
      ensures old(log) <= log && (old(log) == [] ==> Begins(log, cmd))
      ensures ok ==> Progress(log, content, written + size, Other(cmd)) && log != []
    {
      ghost var log0 := log;
      ok := PingPongWrite(cmd, content[written..written + size]);
      ChunkSent(log0, content, written, size, cmd);
      if ok {
        ProgressIsOrderly(log, content, written + size, Other(cmd));
      }
    }

    /** Confirm the end of the file. */
    method Finish(content: seq<byte>, ghost cmd: Buffer) returns (ok: bool)
      requires Progress(log, content, |content|, cmd)
      modifies this
      ensures Orderly(log, content) && Image(log) == content && old(log) <= log && faults == old(faults) + Fault(ok)
      ensures ok ==> log == old(log) + [Eof]
    {
      ProgressIsOrderly(log, content, |content|, cmd);
      EofIsOrderly(log, content);
      ok := BlCmdEof();
    }

    /** The chunk loop of auto_fw_upgrade. */
    method SendChunks(content: seq<byte>) returns (ok: bool, ghost next: Buffer)
      requires log == []
      modifies this
      ensures Orderly(log, content) && Begins(log, Pong) && faults == old(faults) + Fault(ok)
      ensures ok ==> Progress(log, content, |content|, next) && (log == [] ==> content == [])
    {
      var numFlash := |content| / FLASH_WRITE_CHUNK_SIZE;
      var written, index, cmd := 0, 0, Pong;
      while index <= numFlash
        invariant 0 <= index <= numFlash + 1
        invariant written == if index <= numFlash then index * FLASH_WRITE_CHUNK_SIZE else |content|
        invariant cmd == if index % 2 == 1 then Ping else Pong
        invariant Progress(log, content, written, cmd)
        invariant Begins(log, Pong) && (log == [] <==> index == 0) && faults == old(faults)
      {
        var size := FLASH_WRITE_CHUNK_SIZE;
        if index == numFlash {
          size := |content| % FLASH_WRITE_CHUNK_SIZE;
          if size == 0 {
            break;
          }
        }
        ok := SendChunk(content, written, size, cmd);
        if !ok {
          return ok, cmd;
        }
        written, index := written + size, index + 1;
        cmd := if index % 2 == 1 then Ping else Pong;
      }
      return true, cmd;
    }

    /** auto_fw_upgrade. On success the chunks written are the content; on any failure they are a
      * prefix of it; the buffers are used as the device announces them in every case. */
    method AutoFwUpgrade(content: seq<byte>, flashCapacity: nat) returns (ok: bool)
      requires FLASHING_START_ADDRESS + 4 <= |content| < U32 && log == []
      modifies this
      ensures Orderly(log, content) && Begins(log, Pong)
      ensures ok ==> Image(log) == content && log != [] && log[|log| - 1] == Eof
      ensures !Acceptable(content, flashCapacity) ==> !ok && log == []
      ensures |content| > 400 * 1024 || StartAddress(content) < 68 * 1024 || StartAddress(content) % 4096 != 0 ==> !ok
      ensures ok <==> Acceptable(content, flashCapacity) && faults == old(faults)
    {
      if |content| > MAX_FLASH_FILE_SIZE {
        return false;
      }
      var start := StartAddress(content);
      if start < FW_IMAGE_MIN_ADDRESS {
        return false;
      }
      if start % FLASH_SECTOR_SIZE != 0 {
        return false;
      }
      if (start + |content|) % U32 > flashCapacity {
        return false;
      }
      ghost var next;
      ok, next := SendChunks(content);
      if ok {
        ok := Finish(content, next);
      }
    }

    /** The loop of rsi_secure_firmware_load. The counter of blocks is an u32 that is decremented
      * before it is tested. */
    method SendBlocks(image: seq<byte>, fwSz: nat) returns (ok: bool, ghost next: Buffer)
      requires fwSz < U32 && |image| == PaddedSize(fwSz) && log == []
      modifies this
      ensures Orderly(log, image) && Begins(log, Ping) && faults == old(faults) + Fault(ok)
      ensures ok ==> Progress(log, image, |image|, next) && log != []
    {
      var noOfBlocks: nat := fwSz / FLASH_WRITE_CHUNK_SIZE + (if fwSz % FLASH_WRITE_CHUNK_SIZE != 0 then 1 else 0);
      var cmd, offset := Ping, 0;
      while true
        invariant noOfBlocks < U32 && offset + ToWrite(noOfBlocks) * FLASH_WRITE_CHUNK_SIZE == |image|
        invariant Progress(log, image, offset, cmd) && Begins(log, Ping) && (log == [] ==> cmd == Ping)
        invariant faults == old(faults)
        decreases ToWrite(noOfBlocks)
      {
        ok := SendChunk(image, offset, FLASH_WRITE_CHUNK_SIZE, cmd);
        next := Other(cmd);
        if !ok {
          return;
        }
        cmd := Other(cmd);
        offset := offset + FLASH_WRITE_CHUNK_SIZE;
        CountDown(noOfBlocks);
        noOfBlocks := (noOfBlocks - 1) % U32;
        if noOfBlocks == 0 {
          break;
        }
      }
    }

    /** rsi_secure_firmware_load, for an image in memory that reaches as far as the code reads. The
      * blocks written are the image followed by what lies behind it up to the block boundary. */
    method SecureFirmwareLoad(memory: seq<byte>, fwSz: nat) returns (ok: bool)
      requires fwSz < U32 && PaddedSize(fwSz) <= |memory| && log == []
      modifies this
      ensures Orderly(log, memory[..PaddedSize(fwSz)]) && Begins(log, Ping)
      ensures ok ==> Image(log) == memory[..PaddedSize(fwSz)] && fwSz <= PaddedSize(fwSz)
      ensures ok <==> faults == old(faults)
    {
      ok := *;
      faults := faults + Fault(ok);
      if !ok {
        return;
      }
      PaddedCovers(fwSz);
      var image := memory[..PaddedSize(fwSz)];
      ghost var next;
      ok, next := SendBlocks(image, fwSz);
      if ok {
        ok := Finish(image, next);
      }
      if ok {
        ok := *;
        faults := faults + Fault(ok);
      }
    }
  }

  lemma PaddedCovers(n: nat)
    requires n < U32
    ensures n <= PaddedSize(n) && PaddedSize(n) % 4096 == 0
    ensures n > 0 ==> PaddedSize(n) < n + 4096
  {}

  lemma CountDown(n: nat)
    requires n < U32
    ensures var m := (n - 1) % U32; 0 <= m < U32 && ToWrite(n) == if m == 0 then 1 else ToWrite(m) + 1
  {}

  /** Blocks written before a counter at `n` reaches 0 again. */
  function ToWrite(n: nat): nat { if n == 0 then U32 else n }

  /** Bytes written for an image of n bytes: whole blocks, and 2^32 of them for the empty image. */
  function PaddedSize(n: nat): nat {
    ToWrite(n / FLASH_WRITE_CHUNK_SIZE + (if n % FLASH_WRITE_CHUNK_SIZE != 0 then 1 else 0)) * FLASH_WRITE_CHUNK_SIZE
  }

  function StartAddress(content: seq<byte>): nat
    requires FLASHING_START_ADDRESS + 4 <= |content|
  {
    var a, b, c, d: nat := content[16], content[17], content[18], content[19];
    a + 0x100 * b + 0x1_0000 * c + 0x100_0000 * d
  }

  /** The checks made before anything is written. */
  predicate Acceptable(content: seq<byte>, flashCapacity: nat)
    requires FLASHING_START_ADDRESS + 4 <= |content|
  {
    var start := StartAddress(content);
    && |content| <= MAX_FLASH_FILE_SIZE
    && FW_IMAGE_MIN_ADDRESS <= start && start % FLASH_SECTOR_SIZE == 0
    && (start + |content|) % U32 <= flashCapacity
  }

  /** The end of the image is computed in 32 bits: an accepted image fits the flash exactly when
    * that sum did not wrap. */
  lemma AcceptedFitsIff(content: seq<byte>, flashCapacity: nat)
    requires FLASHING_START_ADDRESS + 4 <= |content| && flashCapacity < U32 && Acceptable(content, flashCapacity)
    ensures StartAddress(content) + |content| <= flashCapacity <==> StartAddress(content) + |content| < U32
  {}

  /** Two sectors that begin one sector below 4 GiB are accepted for a flash of any capacity from
    * one sector. */
  lemma WrappedImageAccepted(flashCapacity: nat)
    requires FLASH_SECTOR_SIZE <= flashCapacity < U32
    ensures exists content: seq<byte> ::
              && FLASHING_START_ADDRESS + 4 <= |content| && Acceptable(content, flashCapacity)
              && StartAddress(content) + |content| > flashCapacity
  {
    var content: seq<byte> := seq(8192, i => if i == 17 then 0xF0 else if i == 18 || i == 19 then 0xFF else 0);
    assert content[16] == 0 && content[17] == 0xF0 && content[18] == 0xFF && content[19] == 0xFF;
    assert StartAddress(content) == 0xFFFF_F000;
  }
}
