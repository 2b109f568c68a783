/**
 The endpoint buffers of include/usb_descr.h and include/usb_handler.h share one stretch
 of external RAM with no gaps, and the descriptor copy of include/usb_handler.c writes
 into it with an 8-bit counter.
 */
module SharedRam {

  type Ram = seq<bv8>

  const RAM_SIZE := 1024
  const CODE_SPACE := 0x1_0000

  // Linked variables start here (XRAM_LOC in the Makefile).
  const VARIABLES := 0x100

  const EP0_SIZE := 64

  // Where each endpoint's packets live: [start, end).
  datatype Window = Window(start: nat, size: nat) {
    function End(): nat { start + size }
  }

  const EP0 := Window(0, 64)
  const EP1_OUT := Window(64, 16)
  const EP1_IN := Window(128, 16)
  const EP2_OUT := Window(82, 32)
  const EP2_IN := Window(146, 32)

  const OTHER_WINDOWS := [EP1_OUT, EP1_IN, EP2_OUT, EP2_IN]

  function Slice(ram: Ram, w: Window): seq<bv8>
    requires w.End() <= |ram|
  {
    ram[w.start..w.End()]
  }

  // Writing data at the start of a window, by DMA or by a copy loop.
  function Written(ram: Ram, w: Window, data: seq<bv8>): (r: Ram)
    requires w.End() <= |ram| && |data| <= w.size
    ensures |r| == |ram|
  {
    ram[..w.start] + data + ram[w.start + |data|..]
  }

  // djnz counts an 8-bit register down to zero after each byte, so 0 means 256 bytes.
  function CopyCount(len: nat): nat
    requires len < 256
  {
    if len == 0 then 256 else len
  }

  function CopyByte(ram: Ram, code: seq<bv8>, source: nat, len: nat, i: nat): bv8
    requires |code| == CODE_SPACE && len < 256 && i < |ram|
  {
    if i < CopyCount(len) then code[(source + i) % CODE_SPACE] else ram[i]
  }

  // USB_EP0_copyDescr: from code memory to the start of RAM.
  function CopyDescr(ram: Ram, code: seq<bv8>, source: nat, len: nat): (r: Ram)
    requires |ram| == RAM_SIZE && |code| == CODE_SPACE && len < 256
    ensures |r| == RAM_SIZE
  {
    seq(RAM_SIZE, i requires 0 <= i < RAM_SIZE => CopyByte(ram, code, source, len, i))
  }

  lemma NextAddress(a: nat)
    ensures (a % CODE_SPACE + 1) % CODE_SPACE == (a + 1) % CODE_SPACE
  {
  }

  lemma CountDown(r7: nat)
    requires r7 < 256
    ensures (r7 + 255) % 256 == if r7 == 0 then 255 else r7 - 1
  {
  }

  // The assembly loop: copy first, count afterwards.
  method CopyLoop(ram: array<bv8>, code: seq<bv8>, source: nat, len: nat)
    requires ram.Length == RAM_SIZE && |code| == CODE_SPACE && len < 256 && source < CODE_SPACE
    modifies ram
    ensures ram[..] == CopyDescr(old(ram[..]), code, source, len)
  {
    var r7, from, to := len, source, 0;
    while true
      invariant 0 <= r7 < 256 && to + CopyCount(r7) == CopyCount(len)
      invariant from == (source + to) % CODE_SPACE
      invariant forall i :: 0 <= i < RAM_SIZE ==>
        ram[i] == if i < to then code[(source + i) % CODE_SPACE] else old(ram[i])
      decreases CopyCount(r7)
    {
      NextAddress(source + to);
      CountDown(r7);
      ram[to] := code[from];
      from := (from + 1) % CODE_SPACE;
      to := to + 1;
      r7 := (r7 + 255) % 256;
      if r7 == 0 {
        break;
      }
    }
    assert ram[..] == CopyDescr(old(ram[..]), code, source, len);
  }

  // ---------------------------------------------------------------- frames

  function BufferSize(packet: nat): nat { if packet + 2 < 64 then packet + 2 else 64 }

  // The buffers follow one another, each two bytes longer than its packets but at most 64,
  // and the controller takes an endpoint's IN packets from 64 bytes behind its OUT buffer.
  lemma WindowsAreWhereTheControllerLooks()
    ensures EP0.start == 0 && EP1_OUT.start == BufferSize(EP0.size)
    ensures EP2_OUT.start == BufferSize(EP0.size) + BufferSize(EP1_OUT.size)
    ensures EP1_IN.start == EP1_OUT.start + 64 && EP2_IN.start == EP2_OUT.start + 64
    ensures EP0.size == 64 && EP1_OUT.size == EP1_IN.size == 16 && EP2_OUT.size == EP2_IN.size == 32
  {
  }

  lemma WindowsAreDisjoint(i: nat, j: nat)
    requires i < |OTHER_WINDOWS| && j < |OTHER_WINDOWS| && i != j
    ensures var a, b := OTHER_WINDOWS[i], OTHER_WINDOWS[j];
            a.End() <= b.start || b.End() <= a.start
    ensures EP0.End() <= OTHER_WINDOWS[i].start && OTHER_WINDOWS[i].End() <= VARIABLES
  {
  }

  lemma WrittenElsewhere(ram: Ram, w: Window, data: seq<bv8>, from: nat, to: nat)
    requires w.End() <= |ram| && |data| <= w.size
    requires from <= to <= |ram| && (to <= w.start || w.End() <= from)
    ensures Written(ram, w, data)[from..to] == ram[from..to]
  {
    var r := Written(ram, w, data);
    forall i | from <= i < to ensures r[i] == ram[i] {
      assert i >= w.End() ==> r[i] == ram[w.start + |data|..][i - w.start - |data|];
    }
  }

  // A packet of at most the declared size leaves every other endpoint's window alone.
  lemma PacketsStayInTheirWindow(ram: Ram, i: nat, j: nat, data: seq<bv8>)
    requires |ram| == RAM_SIZE && i < |OTHER_WINDOWS| && j < |OTHER_WINDOWS| && i != j
    requires |data| <= OTHER_WINDOWS[i].size
    ensures Slice(Written(ram, OTHER_WINDOWS[i], data), OTHER_WINDOWS[j]) == Slice(ram, OTHER_WINDOWS[j])
    ensures Slice(Written(ram, OTHER_WINDOWS[i], data), EP0) == Slice(ram, EP0)
    ensures Written(ram, OTHER_WINDOWS[i], data)[VARIABLES..] == ram[VARIABLES..]
  {
    WindowsAreDisjoint(i, j);
    var w := OTHER_WINDOWS[i];
    WrittenElsewhere(ram, w, data, OTHER_WINDOWS[j].start, OTHER_WINDOWS[j].End());
    WrittenElsewhere(ram, w, data, 0, EP0.End());
    WrittenElsewhere(ram, w, data, VARIABLES, RAM_SIZE);
  }

  ghost predicate LeavesOthersAlone(ram: Ram, after: Ram)
    requires |ram| == RAM_SIZE && |after| == RAM_SIZE
  {
    forall i :: EP0.End() <= i < RAM_SIZE ==> after[i] == ram[i]
  }

  // A descriptor copy leaves everything outside endpoint 0's buffer alone, whatever the
  // memories hold, exactly when its length is between 1 and 64.
  lemma CopyIsConfinedExactly(len: nat)
    requires len < 256
    ensures 1 <= len <= EP0_SIZE <==>
      forall ram: Ram, code: seq<bv8>, source: nat :: |ram| == RAM_SIZE && |code| == CODE_SPACE ==>
        LeavesOthersAlone(ram, CopyDescr(ram, code, source, len))
  {
    if !(1 <= len <= EP0_SIZE) {
      var ram: Ram, code: seq<bv8> := seq(RAM_SIZE, _ => 0), seq(CODE_SPACE, _ => 1);
      assert CopyDescr(ram, code, 0, len)[EP0_SIZE] == 1;
      assert !LeavesOthersAlone(ram, CopyDescr(ram, code, 0, len));
    }
  }

  // A copy of length 0 replaces all four endpoint windows by code memory, but stops
  // short of the variables.
  lemma EmptyCopyOverwritesEveryWindow(ram: Ram, code: seq<bv8>, source: nat, w: nat)
    requires |ram| == RAM_SIZE && |code| == CODE_SPACE && w < |OTHER_WINDOWS|
    requires source + VARIABLES <= CODE_SPACE
    ensures var r := CopyDescr(ram, code, source, 0);
            Slice(r, OTHER_WINDOWS[w]) == code[source + OTHER_WINDOWS[w].start..source + OTHER_WINDOWS[w].End()]
            && r[VARIABLES..] == ram[VARIABLES..]
  {
    WindowsAreDisjoint(w, if w == 0 then 1 else 0);
  }
}
