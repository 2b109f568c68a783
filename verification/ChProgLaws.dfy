/**
 The packets of chprog's write loop tile the data, keyed by address, despite the reused
 buffer; and they carry the same chunks as the other client's.
 */
module ChProgLaws {
  import opened Wrappers
  import opened Flasher
  import opened FlasherLaws
  import opened ChProg

  // ---------------------------------------------------------------- the packets sent

  // Packet k + j of a write that starts at chunk k says chunk k + j.
  ghost predicate FramesFrom(frames: seq<Bytes>, data: Bytes, mode: bv8, chipid: bv8, k: nat) {
    && k + |frames| <= ChunkCount(data)
    && forall j :: 0 <= j < |frames| ==> Says(frames[j], data, mode, chipid, k + j)
  }

  ghost predicate Says(f: Bytes, data: Bytes, mode: bv8, chipid: bv8, k: nat)
    requires k < ChunkCount(data)
  {
    |f| == BUFFER && f[..8 + ChunkLength(data, CHUNK * k)] == Chunk(data, mode, chipid, CHUNK * k)
  }

  // The reply lets the loop go on.
  predicate Accepted(mode: bv8, r: Reply) {
    r.Answered? && |r.data| >= 5
    && (mode == PROGRAM || mode == VERIFY ==> r.data[4] in {0x00, 0xFE, 0xF5})
  }

  lemma JudgeAccepts(mode: bv8, r: Reply)
    ensures Judge(mode, r).None? <==> Accepted(mode, r)
    ensures Judge(mode, r) != Some(Done)
  {
  }

  lemma PrependFrame(f: Bytes, rest: seq<Bytes>, data: Bytes, mode: bv8, chipid: bv8, k: nat)
    requires k < ChunkCount(data) && Says(f, data, mode, chipid, k)
    requires FramesFrom(rest, data, mode, chipid, k + 1)
    ensures FramesFrom([f] + rest, data, mode, chipid, k)
  {
    forall j | 0 <= j < |[f] + rest| ensures Says(([f] + rest)[j], data, mode, chipid, k + j) {
      if j > 0 {
        assert Says(rest[j - 1], data, mode, chipid, k + 1 + (j - 1));
      }
    }
  }

  ghost predicate AllAccepted(device: Isp, log: seq<Bytes>, mode: bv8, frames: seq<Bytes>)
    decreases frames
  {
    frames == []
    || (Accepted(mode, device(log + [frames[0]])) && AllAccepted(device, log + [frames[0]], mode, frames[1..]))
  }

  lemma PrependAccepted(device: Isp, log: seq<Bytes>, mode: bv8, f: Bytes, rest: seq<Bytes>)
    ensures AllAccepted(device, log, mode, [f] + rest) <==>
            Accepted(mode, device(log + [f])) && AllAccepted(device, log + [f], mode, rest)
  {
    assert ([f] + rest)[1..] == rest;
  }

  // What a write from chunk k on sent; it is done exactly when it sent every chunk and the
  // reply to each was accepted.
  ghost predicate Wrote(device: Isp, log: seq<Bytes>, data: Bytes, mode: bv8, chipid: bv8, k: nat,
                        w: Progress, frames: seq<Bytes>) {
    && w.log == log + frames && FramesFrom(frames, data, mode, chipid, k)
    && (w.outcome == Done <==> k + |frames| == ChunkCount(data) && AllAccepted(device, log, mode, frames))
  }

  lemma {:induction false} WriteSends(device: Isp, log: seq<Bytes>, data: Bytes, mode: bv8, chipid: bv8,
                                      k: nat, before: Bytes) returns (frames: seq<Bytes>)
    requires |before| == BUFFER && k <= ChunkCount(data)
    ensures Wrote(device, log, data, mode, chipid, k,
                  WriteFrom(device, log, data, mode, chipid, CHUNK * k, before), frames)
    decreases ChunkCount(data) - k, 0
  {
    frames := [];
    if k < ChunkCount(data) {
      NextOffset(data, k);
      var f := Frame(data, mode, chipid, CHUNK * k, before);
      WriteStep(device, log, data, mode, chipid, CHUNK * k, before, f);
      var rest: seq<Bytes> := [];
      if Accepted(mode, device(log + [f])) {
        rest := WriteRest(device, log + [f], data, mode, chipid, k, f, CHUNK * k + ChunkLength(data, CHUNK * k));
      }
      assert Says(f, data, mode, chipid, k);
      frames := [f] + rest;
      FirstWrite(device, log, data, mode, chipid, k, f,
                 WriteFrom(device, log, data, mode, chipid, CHUNK * k, before), rest);
    }
  }

  lemma {:induction false} WriteRest(device: Isp, log: seq<Bytes>, data: Bytes, mode: bv8, chipid: bv8,
                                     k: nat, before: Bytes, next: nat) returns (frames: seq<Bytes>)
    requires |before| == BUFFER && k < ChunkCount(data)
    requires next == if k + 1 < ChunkCount(data) then CHUNK * (k + 1) else |data|
    ensures Wrote(device, log, data, mode, chipid, k + 1,
                  WriteFrom(device, log, data, mode, chipid, next, before), frames)
    decreases ChunkCount(data) - k - 1, 1
  {
    if k + 1 < ChunkCount(data) {
      frames := WriteSends(device, log, data, mode, chipid, k + 1, before);
    } else {
      frames := [];
      NothingLeft(device, log, data, mode, chipid, before);
    }
  }

  lemma NothingLeft(device: Isp, log: seq<Bytes>, data: Bytes, mode: bv8, chipid: bv8, before: Bytes)
    requires |before| == BUFFER
    ensures Wrote(device, log, data, mode, chipid, ChunkCount(data),
                  WriteFrom(device, log, data, mode, chipid, |data|, before), [])
  {
  }

  lemma WriteStep(device: Isp, log: seq<Bytes>, data: Bytes, mode: bv8, chipid: bv8, at: nat, before: Bytes, f: Bytes)
    requires |before| == BUFFER && at < |data| && f == Frame(data, mode, chipid, at, before)
    ensures var w := WriteFrom(device, log, data, mode, chipid, at, before);
            if Accepted(mode, device(log + [f])) then
              w == WriteFrom(device, log + [f], data, mode, chipid, at + ChunkLength(data, at), f)
            else w.log == log + [f] && w.outcome != Done
  {
    OneChunk(device, log, data, mode, chipid, at, before);
    JudgeAccepts(mode, device(log + [f]));
  }

  lemma FirstWrite(device: Isp, log: seq<Bytes>, data: Bytes, mode: bv8, chipid: bv8, k: nat, f: Bytes,
                   w: Progress, rest: seq<Bytes>)
    requires k < ChunkCount(data) && Says(f, data, mode, chipid, k)
    requires if Accepted(mode, device(log + [f])) then Wrote(device, log + [f], data, mode, chipid, k + 1, w, rest)
             else w.log == log + [f] && w.outcome != Done && rest == []
    ensures Wrote(device, log, data, mode, chipid, k, w, [f] + rest)
  {
    assert log + ([f] + rest) == log + [f] + rest;
    PrependFrame(f, rest, data, mode, chipid, k);
    PrependAccepted(device, log, mode, f, rest);
  }

  // ---------------------------------------------------------------- where a write stops

  // What a reply that does not let the loop go on makes of the write.
  function VerdictOf(mode: bv8, r: Reply): Outcome {
    if r.Broken? then TransportError
    else if |r.data| < 5 then ReplyUnusable
    else if mode == 0xA5 then Outcome.WriteFailed
    else VerifyFailed
  }

  // A write that is not done stopped at a reply that was not accepted, and says why; one
  // that does not fit sends nothing.
  lemma WriteStopsAs(device: Isp, log: seq<Bytes>, data: Bytes, mode: bv8, chipid: bv8, room: nat)
    ensures var w := WriteAll(device, log, data, mode, chipid, room);
            if |data| > room then w == Progress(log, NotEnoughMemory)
            else w.outcome != Done ==>
              !Accepted(mode, device(w.log)) && w.outcome == VerdictOf(mode, device(w.log))
  {
    StopsFrom(device, log, data, mode, chipid, 0, Blank());
  }

  lemma {:induction false} StopsFrom(device: Isp, log: seq<Bytes>, data: Bytes, mode: bv8, chipid: bv8,
                                     at: nat, before: Bytes)
    requires |before| == BUFFER
    ensures var w := WriteFrom(device, log, data, mode, chipid, at, before);
            w.outcome != Done ==> !Accepted(mode, device(w.log)) && w.outcome == VerdictOf(mode, device(w.log))
    decreases |data| - at
  {
    if at < |data| {
      var f := Frame(data, mode, chipid, at, before);
      var verdict := Judge(mode, device(log + [f]));
      AfterChunk(device, log, data, mode, chipid, at, before, ChunkLength(data, at), f, verdict);
      JudgeStops(mode, device(log + [f]));
      if verdict.None? {
        StopsFrom(device, log + [f], data, mode, chipid, at + ChunkLength(data, at), f);
      }
    }
  }

  lemma JudgeStops(mode: bv8, r: Reply)
    ensures Judge(mode, r) == if Accepted(mode, r) then None else Some(VerdictOf(mode, r))
  {
  }

  // ---------------------------------------------------------------- what survives in the buffer

  // Each packet ends with what the one before had there.
  ghost predicate TailsSurvive(before: Bytes, frames: seq<Bytes>, data: Bytes, k: nat)
    decreases frames
  {
    frames == []
    || (&& CHUNK * k < |data| && |frames[0]| == |before| == BUFFER
        && frames[0][8 + ChunkLength(data, CHUNK * k)..] == before[8 + ChunkLength(data, CHUNK * k)..]
        && TailsSurvive(frames[0], frames[1..], data, k + 1))
  }

  ghost predicate Kept(log: seq<Bytes>, before: Bytes, data: Bytes, k: nat, w: Progress, frames: seq<Bytes>) {
    w.log == log + frames && TailsSurvive(before, frames, data, k)
  }

  // The buffer is never cleared: behind a short last chunk the device still gets bytes of
  // the chunk before, and behind the first chunk zeros.
  lemma {:induction false} ShortChunksKeepTheTail(device: Isp, log: seq<Bytes>, data: Bytes, mode: bv8, chipid: bv8,
                                                  k: nat, before: Bytes)
    returns (frames: seq<Bytes>)
    requires |before| == BUFFER && k <= ChunkCount(data)
    ensures Kept(log, before, data, k, WriteFrom(device, log, data, mode, chipid, CHUNK * k, before), frames)
    decreases ChunkCount(data) - k, 0
  {
    frames := [];
    if k < ChunkCount(data) {
      NextOffset(data, k);
      frames := ThisChunkKeepsTheTail(device, log, data, mode, chipid, k, before,
                                      Frame(data, mode, chipid, CHUNK * k, before), CHUNK * k,
                                      WriteFrom(device, log, data, mode, chipid, CHUNK * k, before));
    }
  }

  lemma {:induction false} ThisChunkKeepsTheTail(device: Isp, log: seq<Bytes>, data: Bytes, mode: bv8, chipid: bv8,
                                                 k: nat, before: Bytes, f: Bytes, at: nat, w: Progress)
    returns (frames: seq<Bytes>)
    requires |before| == BUFFER && k < ChunkCount(data) && at == CHUNK * k < |data|
    requires f == Frame(data, mode, chipid, at, before)
    requires w == WriteFrom(device, log, data, mode, chipid, at, before)
    requires at + ChunkLength(data, at) == if k + 1 < ChunkCount(data) then CHUNK * (k + 1) else |data|
    ensures Kept(log, before, data, k, w, frames)
    decreases ChunkCount(data) - k - 1, 2
  {
    WriteStep(device, log, data, mode, chipid, at, before, f);
    TailOf(f, data, mode, chipid, at, before);
    frames := [];
    if Accepted(mode, device(log + [f])) {
      frames := LaterChunksKeepTheTail(device, log + [f], data, mode, chipid, k, f, at + ChunkLength(data, at));
    }
    PutTail(log, f, frames, data, k, before, w);
    frames := [f] + frames;
  }

  lemma {:induction false} LaterChunksKeepTheTail(device: Isp, log: seq<Bytes>, data: Bytes, mode: bv8, chipid: bv8,
                                                  k: nat, before: Bytes, next: nat)
    returns (frames: seq<Bytes>)
    requires |before| == BUFFER && k < ChunkCount(data)
    requires next == if k + 1 < ChunkCount(data) then CHUNK * (k + 1) else |data|
    ensures Kept(log, before, data, k + 1, WriteFrom(device, log, data, mode, chipid, next, before), frames)
    decreases ChunkCount(data) - k - 1, 1
  {
    if k + 1 < ChunkCount(data) {
      frames := ShortChunksKeepTheTail(device, log, data, mode, chipid, k + 1, before);
    } else {
      frames := [];
      assert log + [] == log;
    }
  }

  lemma PutTail(log: seq<Bytes>, f: Bytes, rest: seq<Bytes>, data: Bytes, k: nat, before: Bytes, w: Progress)
    requires CHUNK * k < |data| && |f| == |before| == BUFFER
    requires Kept(log + [f], f, data, k + 1, w, rest) || (w.log == log + [f] && rest == [])
    requires f[8 + ChunkLength(data, CHUNK * k)..] == before[8 + ChunkLength(data, CHUNK * k)..]
    ensures Kept(log, before, data, k, w, [f] + rest)
  {
    var all := [f] + rest;
    assert all[0] == f && all[1..] == rest && log + [f] + rest == log + all;
  }

  lemma TailOf(f: Bytes, data: Bytes, mode: bv8, chipid: bv8, at: nat, before: Bytes)
    requires at < |data| && |before| == BUFFER && f == Frame(data, mode, chipid, at, before)
    ensures f[8 + ChunkLength(data, at)..] == before[8 + ChunkLength(data, at)..]
  {
  }

  // ---------------------------------------------------------------- what they carry

  function AddressOf(f: Bytes): nat
    requires |f| == BUFFER
  {
    f[3] as nat + 256 * f[4] as nat
  }

  function LengthOf(f: Bytes): int
    requires |f| == BUFFER
  {
    f[1] as int - 5
  }

  // The packet's header and the byte for one data address: keyed exactly when the address
  // is 7 modulo 8.
  lemma FrameSays(f: Bytes, data: Bytes, mode: bv8, chipid: bv8, k: nat, i: nat)
    requires k < ChunkCount(data) && |data| <= 0x1_0000 && Says(f, data, mode, chipid, k)
    requires i < ChunkLength(data, CHUNK * k)
    ensures f[0] == mode && AddressOf(f) == CHUNK * k && LengthOf(f) == ChunkLength(data, CHUNK * k)
    ensures f[8 + i] == Keyed(data[CHUNK * k + i], CHUNK * k + i, chipid)
  {
    var at, n := CHUNK * k, ChunkLength(data, CHUNK * k);
    var c := Chunk(data, mode, chipid, at);
    HeaderBytes(data, mode, chipid, at);
    HeaderSays(mode, n, at, |data| - at);
    DataByte(data, mode, chipid, at, i);
    SameEighth(k, i);
    PrefixBytes(f, c);
  }

  lemma PrefixBytes(f: Bytes, c: Bytes)
    requires |c| <= |f| && f[..|c|] == c
    ensures forall x :: 0 <= x < |c| ==> f[x] == c[x]
  {
  }

  // Byte 7 apart, keying leaves the header as it is.
  lemma HeaderBytes(data: Bytes, mode: bv8, chipid: bv8, at: nat)
    requires at < |data|
    ensures var h := Header(mode, ChunkLength(data, at), at, |data| - at);
            forall x :: 0 <= x < 7 ==> Chunk(data, mode, chipid, at)[x] == h[x]
  {
    var n := ChunkLength(data, at);
    var h := Header(mode, n, at, |data| - at);
    KeyedHead(h, data[at..at + n], chipid);
  }

  lemma KeyedHead(h: Bytes, data: Bytes, chipid: bv8)
    requires |h| == 8
    ensures forall x :: 0 <= x < 7 ==> KeyedAll(h + data, chipid)[x] == h[x]
  {
    forall x | 0 <= x < 7 ensures KeyedAll(h + data, chipid)[x] == h[x] {
      assert (h + data)[x] == h[x] && x % 8 == x;
    }
  }

  lemma DataByte(data: Bytes, mode: bv8, chipid: bv8, at: nat, i: nat)
    requires at < |data| && i < ChunkLength(data, at)
    ensures Chunk(data, mode, chipid, at)[8 + i] == Keyed(data[at + i], 8 + i, chipid)
  {
    var n := ChunkLength(data, at);
    assert (Header(mode, n, at, |data| - at) + data[at..at + n])[8 + i] == data[at + i];
  }

  lemma SameEighth(k: nat, i: nat)
    ensures (8 + i) % 8 == (CHUNK * k + i) % 8
  {
    ModEight(1, i);
    ModEight(7 * k, i);
    assert CHUNK * k == 8 * (7 * k);
  }

  lemma HeaderSays(mode: bv8, n: nat, at: nat, rest: nat)
    requires n <= CHUNK && at < 0x1_0000
    ensures var h := Header(mode, n, at, rest);
            h[0] == mode && h[1] as int - 5 == n && h[3] as nat + 256 * h[4] as nat == at
  {
    ByteValue(n + 5);
    ByteValue(at);
    ByteValue(at / 256);
    HighByte(at);
  }

  lemma HighByte(at: nat)
    requires at < 0x1_0000
    ensures at % 256 + 256 * (at / 256 % 256) == at
  {
  }

  lemma OwnChunk(data: Bytes, a: nat, j: nat)
    requires a < |data| && j < ChunkCount(data)
    ensures CHUNK * j <= a < CHUNK * j + ChunkLength(data, CHUNK * j) <==> j == a / CHUNK
  {
  }

  // In a write that is done, the byte at each address is carried by one packet, at one
  // place, keyed by its address.
  lemma WriteTilesTheData(device: Isp, log: seq<Bytes>, data: Bytes, mode: bv8, chipid: bv8, room: nat, a: nat)
    returns (frames: seq<Bytes>)
    requires a < |data| && room <= 0x1_0000
    requires WriteAll(device, log, data, mode, chipid, room).outcome == Done
    ensures WriteAll(device, log, data, mode, chipid, room).log == log + frames
    ensures a / CHUNK < |frames| && forall j :: 0 <= j < |frames| ==> |frames[j]| == BUFFER
    ensures frames[a / CHUNK][8 + a % CHUNK] == Keyed(data[a], a, chipid)
    ensures forall j :: 0 <= j < |frames| ==>
      (AddressOf(frames[j]) <= a < AddressOf(frames[j]) + LengthOf(frames[j]) <==> j == a / CHUNK)
    ensures AddressOf(frames[a / CHUNK]) == a - a % CHUNK
  {
    frames := WriteSends(device, log, data, mode, chipid, 0, Blank());
    FrameHeaders(frames, data, mode, chipid);
    ChunkOfAddress(data, a);
    forall j | 0 <= j < |frames|
      ensures AddressOf(frames[j]) <= a < AddressOf(frames[j]) + LengthOf(frames[j]) <==> j == a / CHUNK
    {
      OwnChunk(data, a, j);
    }
    FrameByte(frames, data, mode, chipid, a);
  }

  lemma FrameHeaders(frames: seq<Bytes>, data: Bytes, mode: bv8, chipid: bv8)
    requires |data| <= 0x1_0000 && FramesFrom(frames, data, mode, chipid, 0)
    ensures forall j :: 0 <= j < |frames| ==>
      CHUNK * j < |data| && |frames[j]| == BUFFER
      && AddressOf(frames[j]) == CHUNK * j && LengthOf(frames[j]) == ChunkLength(data, CHUNK * j)
  {
    forall j | 0 <= j < |frames|
      ensures CHUNK * j < |data| && |frames[j]| == BUFFER
      ensures AddressOf(frames[j]) == CHUNK * j && LengthOf(frames[j]) == ChunkLength(data, CHUNK * j)
    {
      assert Says(frames[j], data, mode, chipid, 0 + j);
      FrameSays(frames[j], data, mode, chipid, j, 0);
    }
  }

  lemma FrameByte(frames: seq<Bytes>, data: Bytes, mode: bv8, chipid: bv8, a: nat)
    requires a < |data| <= 0x1_0000 && FramesFrom(frames, data, mode, chipid, 0) && a / CHUNK < |frames|
    ensures |frames[a / CHUNK]| == BUFFER
    ensures frames[a / CHUNK][8 + a % CHUNK] == Keyed(data[a], a, chipid)
  {
    ChunkOfAddress(data, a);
    assert Says(frames[a / CHUNK], data, mode, chipid, 0 + a / CHUNK);
    FrameSays(frames[a / CHUNK], data, mode, chipid, a / CHUNK, a % CHUNK);
  }

  // ---------------------------------------------------------------- the two encoders

  function ChipKey(chipid: bv8): (key: Bytes)
    ensures |key| == 8
  {
    [0, 0, 0, 0, 0, 0, 0, chipid]
  }

  // Up to the padding byte, where this client puts the keyed count of bytes left, a chunk is
  // the packet the other client sends under the key that is zero but for the chip ID.
  lemma EncodersAgree(data: Bytes, mode: bv8, chipid: bv8, at: nat)
    requires at < |data| <= 0x1_0000
    ensures Chunk(data, mode, chipid, at)
         == Packet(mode, ChunkPayload(data, ChipKey(chipid), at))[7 := Byte(|data| - at) ^ chipid]
  {
    var c, p := Chunk(data, mode, chipid, at), Packet(mode, ChunkPayload(data, ChipKey(chipid), at));
    ChunkHeader(mode, data, ChipKey(chipid), at);
    HeaderBytes(data, mode, chipid, at);
    HeadersAgree(data, mode, ChipKey(chipid), at);
    forall x | 0 <= x < |c| && x != 7 ensures c[x] == p[x] {
      if x >= 8 {
        DataByteAgrees(data, mode, chipid, at, x - 8);
      }
    }
    CountByte(data, mode, chipid, at);
    AgreeExceptAt(c, p, 7, Byte(|data| - at) ^ chipid);
  }

  lemma AgreeExceptAt(c: Bytes, p: Bytes, k: nat, value: bv8)
    requires |c| == |p| && k < |c| && c[k] == value
    requires forall x :: 0 <= x < |c| && x != k ==> c[x] == p[x]
    ensures c == p[k := value]
  {
  }

  lemma CountByte(data: Bytes, mode: bv8, chipid: bv8, at: nat)
    requires at < |data|
    ensures Chunk(data, mode, chipid, at)[7] == Byte(|data| - at) ^ chipid
  {
  }

  lemma HeadersAgree(data: Bytes, mode: bv8, key: Bytes, at: nat)
    requires |key| == 8 && at < |data| <= 0x1_0000
    ensures var h, p := Header(mode, ChunkLength(data, at), at, |data| - at), Packet(mode, ChunkPayload(data, key, at));
            forall x :: 0 <= x < 7 ==> h[x] == p[x]
  {
    var n := ChunkLength(data, at);
    SmallCounts(n, at);
    assert Le32(at) == [Byte(at), Byte(at / 0x100), Byte(0), Byte(0)];
    assert Byte(0) == 0;
  }

  lemma SmallCounts(n: nat, at: nat)
    requires n <= CHUNK && at < 0x1_0000
    ensures (n + 5) / 256 == 0 && at / 0x1_0000 == 0 && at / 0x100_0000 == 0
  {
  }

  lemma DataByteAgrees(data: Bytes, mode: bv8, chipid: bv8, at: nat, i: nat)
    requires at < |data| <= 0x1_0000 && i < ChunkLength(data, at)
    requires |Packet(mode, ChunkPayload(data, ChipKey(chipid), at))| == 8 + ChunkLength(data, at)
    ensures Chunk(data, mode, chipid, at)[8 + i] == Packet(mode, ChunkPayload(data, ChipKey(chipid), at))[8 + i]
  {
    ChunkBytes(mode, data, ChipKey(chipid), at, i);
    DataByte(data, mode, chipid, at, i);
    KeyedByChipKey(data[at + i], i, chipid);
  }

  lemma KeyedByChipKey(b: bv8, i: nat, chipid: bv8)
    ensures Keyed(b, 8 + i, chipid) == b ^ ChipKey(chipid)[i % 8]
  {
    ModEight(1, i);
    assert i % 8 < 7 ==> ChipKey(chipid)[i % 8] == 0;
  }
}
