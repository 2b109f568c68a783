/**
 The version 2 write loop of tools/chprog.py: one 64-byte buffer, rewritten in place and
 sent once per chunk.
 */
module ChProg {
  import opened Wrappers
  import opened Flasher

  const BUFFER := 64

  // Broken: the transport raised an error. The reply bytes otherwise, which the client turns
  // into a number when there are exactly two of them.
  datatype Reply = Broken | Answered(data: Bytes)

  type Isp = seq<Bytes> -> Reply

  datatype Outcome = Done | NotEnoughMemory | TransportError | ReplyUnusable | WriteFailed | VerifyFailed

  datatype Progress = Progress(log: seq<Bytes>, outcome: Outcome)

  // None: go on with the next chunk.
  function Judge(mode: bv8, r: Reply): Option<Outcome> {
    if r.Broken? then Some(TransportError)
    else if |r.data| < 5 then Some(ReplyUnusable)
    else if r.data[4] == 0x00 || r.data[4] == 0xFE || r.data[4] == 0xF5 then None
    else if mode == PROGRAM then Some(Outcome.WriteFailed)
    else if mode == VERIFY then Some(VerifyFailed)
    else None
  }

  function Header(mode: bv8, length: nat, at: nat, rest: nat): (h: Bytes)
    ensures |h| == 8
  {
    [mode, Byte(length + 5), 0x00, Byte(at), Byte(at / 256), 0x00, 0x00, Byte(rest)]
  }

  // Every eighth byte is keyed with the chip ID.
  function Keyed(b: bv8, x: nat, chipid: bv8): bv8 {
    if x % 8 == 7 then b ^ chipid else b
  }

  function KeyedAll(b: Bytes, chipid: bv8): (r: Bytes)
    ensures |r| == |b|
  {
    seq(|b|, x requires 0 <= x < |b| => Keyed(b[x], x, chipid))
  }

  // What one packet says: header and data, before whatever the buffer still holds.
  function Chunk(data: Bytes, mode: bv8, chipid: bv8, at: nat): (c: Bytes)
    requires at < |data|
    ensures |c| == 8 + ChunkLength(data, at) <= BUFFER
  {
    var n := ChunkLength(data, at);
    KeyedAll(Header(mode, n, at, |data| - at) + data[at..at + n], chipid)
  }

  // The whole buffer as sent: the chunk, then the tail of the packet before.
  function Frame(data: Bytes, mode: bv8, chipid: bv8, at: nat, before: Bytes): (f: Bytes)
    requires at < |data| && |before| == BUFFER
    ensures |f| == BUFFER && f[..8 + ChunkLength(data, at)] == Chunk(data, mode, chipid, at)
  {
    Chunk(data, mode, chipid, at) + before[8 + ChunkLength(data, at)..]
  }

  function WriteFrom(device: Isp, log: seq<Bytes>, data: Bytes, mode: bv8, chipid: bv8, at: nat, before: Bytes)
    : Progress
    requires |before| == BUFFER
    decreases |data| - at
  {
    if at >= |data| then Progress(log, Done)
    else
      var f := Frame(data, mode, chipid, at, before);
      var after := log + [f];
      var verdict := Judge(mode, device(after));
      if verdict.Some? then Progress(after, verdict.value)
      else WriteFrom(device, after, data, mode, chipid, at + ChunkLength(data, at), f)
  }

  // How the loop goes on from a frame that was sent and its reply.
  lemma AfterChunk(device: Isp, log: seq<Bytes>, data: Bytes, mode: bv8, chipid: bv8, at: nat, before: Bytes,
                   length: nat, f: Bytes, verdict: Option<Outcome>)
    requires at < |data| && |before| == |f| == BUFFER && length == ChunkLength(data, at)
    requires f == Frame(data, mode, chipid, at, before) && verdict == Judge(mode, device(log + [f]))
    ensures WriteFrom(device, log, data, mode, chipid, at, before) ==
      if verdict.Some? then Progress(log + [f], verdict.value)
      else WriteFrom(device, log + [f], data, mode, chipid, at + length, f)
  {
    OneChunk(device, log, data, mode, chipid, at, before);
  }

  lemma OneChunk(device: Isp, log: seq<Bytes>, data: Bytes, mode: bv8, chipid: bv8, at: nat, before: Bytes)
    requires at < |data| && |before| == BUFFER
    ensures var f := Frame(data, mode, chipid, at, before);
            var verdict := Judge(mode, device(log + [f]));
            WriteFrom(device, log, data, mode, chipid, at, before) ==
            if verdict.Some? then Progress(log + [f], verdict.value)
            else WriteFrom(device, log + [f], data, mode, chipid, at + ChunkLength(data, at), f)
  {
  }

  function Blank(): (b: Bytes)
    ensures |b| == BUFFER
  {
    seq(BUFFER, _ => 0)
  }

  function WriteAll(device: Isp, log: seq<Bytes>, data: Bytes, mode: bv8, chipid: bv8, room: nat): Progress {
    if |data| > room then Progress(log, NotEnoughMemory)
    else WriteFrom(device, log, data, mode, chipid, 0, Blank())
  }

  // ---------------------------------------------------------------- the buffer in place

  class Programmer {
    const device: Isp
    const chipid: bv8
    const codeFlashSize: nat
    var log: seq<Bytes>

    constructor (device: Isp, chipid: bv8, codeFlashSize: nat)
      ensures this.device == device && this.chipid == chipid && this.codeFlashSize == codeFlashSize
      ensures log == []
    {
      this.device, this.chipid, this.codeFlashSize := device, chipid, codeFlashSize;
      log := [];
    }

    method SendCommand(buffer: array<bv8>) returns (reply: Reply)
      modifies this
      ensures log == old(log) + [old(buffer[..])] && reply == device(log)
    {
      log := log + [buffer[..]];
      reply := device(log);
    }

    // FlashData is Transfer(data, PROGRAM), VerifyData is Transfer(data, VERIFY).
    method Transfer(data: Bytes, mode: bv8) returns (outcome: Outcome)
      modifies this
      ensures Progress(log, outcome) == WriteAll(device, old(log), data, mode, chipid, codeFlashSize)
    {
      if |data| > codeFlashSize {
        return NotEnoughMemory;
      }
      outcome := Write(data, mode);
    }

    method SendChunk(buffer: array<bv8>, data: Bytes, mode: bv8, at: nat, length: nat, rest: nat, ghost before: Bytes)
      returns (reply: Reply)
      requires at < |data| && rest == |data| - at && length == ChunkLength(data, at)
      requires buffer.Length == |before| == BUFFER
      requires Prepared(buffer[..], mode) && buffer[8..] == before[8..]
      modifies this, buffer
      ensures Prepared(buffer[..], mode) && buffer[..] == Frame(data, mode, chipid, at, before)
      ensures log == old(log) + [buffer[..]] && reply == device(log)
    {
      FillBuffer(buffer, data, mode, chipid, at, length, rest, before);
      reply := SendCommand(buffer);
    }

    method Write(data: Bytes, mode: bv8) returns (outcome: Outcome)
      modifies this
      ensures Progress(log, outcome) == WriteFrom(device, old(log), data, mode, chipid, 0, Blank())
    {
      var buffer := new bv8[BUFFER](_ => 0);
      ghost var before := buffer[..];
      assert before == Blank();
      ghost var goal := WriteFrom(device, log, data, mode, chipid, 0, before);
      buffer[0] := mode;
      var at, rest := 0, |data|;
      while at < |data|
        invariant 0 <= at <= |data| && rest == |data| - at
        invariant fresh(buffer) && buffer.Length == |before| == BUFFER
        invariant Prepared(buffer[..], mode) && buffer[8..] == before[8..]
        invariant goal == WriteFrom(device, log, data, mode, chipid, at, before)
      {
        var length := if rest >= CHUNK then CHUNK else rest;
        ghost var sent := log;
        var reply := SendChunk(buffer, data, mode, at, length, rest, before);
        var verdict := Judge(mode, reply);
        AfterChunk(device, sent, data, mode, chipid, at, before, length, buffer[..], verdict);
        before := buffer[..];
        at := at + length;
        rest := rest - length;
        if verdict.Some? {
          return verdict.value;
        }
      }
      outcome := Done;
    }
  }

  // The header bytes that are written once, before the loop.
  predicate Prepared(buffer: Bytes, mode: bv8) {
    |buffer| == BUFFER && buffer[0] == mode && buffer[2] == buffer[5] == buffer[6] == 0x00
  }

  method FillBuffer(buffer: array<bv8>, data: Bytes, mode: bv8, chipid: bv8, at: nat, length: nat, rest: nat,
                    ghost before: Bytes)
    requires at < |data| && rest == |data| - at && length == ChunkLength(data, at)
    requires buffer.Length == |before| == BUFFER
    requires Prepared(buffer[..], mode) && buffer[8..] == before[8..]
    modifies buffer
    ensures buffer[..] == Frame(data, mode, chipid, at, before)
    ensures Prepared(buffer[..], mode)
  {
    FillHeader(buffer, mode, length, at, rest);
    ghost var headed := buffer[..];
    CopyIn(buffer, data, at, length);
    ghost var plain := buffer[..];
    StepsMakeTheFrame(data, mode, chipid, at, before, headed, plain);
    KeyInPlace(buffer, length + 8, chipid);
    FrameIsPrepared(data, mode, chipid, at, before);
  }

  method FillHeader(buffer: array<bv8>, ghost mode: bv8, length: nat, at: nat, rest: nat)
    requires buffer.Length == BUFFER && Prepared(buffer[..], mode)
    modifies buffer
    ensures buffer[..8] == Header(mode, length, at, rest) && buffer[8..] == old(buffer[8..])
  {
    buffer[1] := Byte(length + 5);
    buffer[3], buffer[4], buffer[7] := Byte(at), Byte(at / 256), Byte(rest);
  }

  lemma StepsMakeTheFrame(data: Bytes, mode: bv8, chipid: bv8, at: nat, before: Bytes, headed: Bytes, plain: Bytes)
    requires at < |data| && |before| == |headed| == BUFFER
    requires headed[..8] == Header(mode, ChunkLength(data, at), at, |data| - at) && headed[8..] == before[8..]
    requires var n := ChunkLength(data, at); plain == headed[..8] + data[at..at + n] + headed[8 + n..]
    ensures var n := ChunkLength(data, at);
            |plain| == BUFFER
            && KeyedAll(plain[..n + 8], chipid) + plain[n + 8..] == Frame(data, mode, chipid, at, before)
  {
    var n := ChunkLength(data, at);
    assert plain[..n + 8] == headed[..8] + data[at..at + n];
    assert headed[8 + n..] == headed[8..][n..] && before[8 + n..] == before[8..][n..];
    assert plain[n + 8..] == before[8 + n..];
  }

  lemma FrameIsPrepared(data: Bytes, mode: bv8, chipid: bv8, at: nat, before: Bytes)
    requires at < |data| && |before| == BUFFER
    ensures Prepared(Frame(data, mode, chipid, at, before), mode)
  {
    var c := Chunk(data, mode, chipid, at);
    assert c[0] == mode && c[2] == c[5] == c[6] == 0x00;
  }

  method CopyIn(buffer: array<bv8>, data: Bytes, at: nat, length: nat)
    requires buffer.Length == BUFFER && length <= CHUNK && at + length <= |data|
    modifies buffer
    ensures buffer[..] == old(buffer[..8]) + data[at..at + length] + old(buffer[8 + length..])
  {
    var x := 0;
    while x < length
      invariant 0 <= x <= length
      invariant forall k :: 8 <= k < 8 + x ==> buffer[k] == data[at + k - 8]
      invariant forall k :: 0 <= k < 8 || 8 + x <= k < BUFFER ==> buffer[k] == old(buffer[k])
    {
      buffer[x + 8] := data[at + x];
      x := x + 1;
    }
    assert buffer[8..8 + length] == data[at..at + length];
    assert buffer[..8] == old(buffer[..8]) && buffer[8 + length..] == old(buffer[8 + length..]);
    assert buffer[..] == buffer[..8] + buffer[8..8 + length] + buffer[8 + length..];
  }

  method KeyInPlace(buffer: array<bv8>, length: nat, chipid: bv8)
    requires buffer.Length == BUFFER && length <= BUFFER
    modifies buffer
    ensures buffer[..] == KeyedAll(old(buffer[..length]), chipid) + old(buffer[length..])
  {
    var x := 0;
    while x < length
      invariant 0 <= x <= length
      invariant forall k :: 0 <= k < x ==> buffer[k] == Keyed(old(buffer[k]), k, chipid)
      invariant forall k :: x <= k < BUFFER ==> buffer[k] == old(buffer[k])
    {
      if x % 8 == 7 {
        buffer[x] := buffer[x] ^ chipid;
      }
      x := x + 1;
    }
  }
}
