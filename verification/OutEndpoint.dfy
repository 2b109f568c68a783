/**
 HID_available, HID_read, HID_ack and the receive handler of include/usb_hid.c in place,
 with the reading loop of include/device_control.c; and that, left alone, they go through
 the steps of the interleaved model.
 */
module OutEndpoint {
  import opened Wrappers
  import opened EndpointOut
  import opened EndpointOutLaws

  datatype Registers = Registers(buffer: Bytes, count: nat, point: nat, rx: Response)

  ghost predicate Bounded(r: Registers) {
    PACKET_SIZE <= |r.buffer| && r.count + r.point <= |r.buffer|
  }

  // The frame an uninterrupted call hands on.
  function FrameOf(r: Registers): Option<Bytes>
    requires Bounded(r)
  {
    if r.count == PACKET_SIZE then Some(r.buffer[r.point..r.point + PACKET_SIZE]) else None
  }

  function AfterReceive(r: Registers): Registers {
    if r.count == 0 then r else r.(count := 0, point := 0, rx := Ack)
  }

  class Endpoint2 {
    const buffer: array<bv8>
    var count: nat
    var point: nat
    var rx: Response

    constructor (size: nat)
      requires PACKET_SIZE <= size
      ensures Valid() && fresh(buffer) && buffer.Length == size
      ensures count == 0 && point == 0 && rx == Ack
    {
      buffer := new bv8[size](_ => 0);
      count, point, rx := 0, 0, Ack;
    }

    ghost predicate Valid()
      reads this
    {
      PACKET_SIZE <= buffer.Length && count + point <= buffer.Length
    }

    function View(): Registers
      reads this, buffer
    {
      Registers(buffer[..], count, point, rx)
    }

    method Available() returns (n: nat)
      ensures n == count
    {
      n := count;
    }

    method Read() returns (data: bv8)
      requires Valid()
      modifies this
      ensures Valid()
      ensures old(count) == 0 ==> View() == old(View()) && data == 0
      ensures old(count) != 0 ==>
        data == buffer[old(point)] && point == old(point) + 1 && count == old(count) - 1
        && rx == if old(count) == 1 then Ack else old(rx)
    {
      if count == 0 {
        return 0;
      }
      data := buffer[point];
      point := point + 1;
      count := count - 1;
      if count == 0 {
        rx := Ack;
      }
    }

    method Acknowledge()
      requires Valid()
      modifies this
      ensures Valid() && count == 0 && point == 0 && rx == Ack
    {
      count := 0;
      point := 0;
      rx := Ack;
    }

    // A packet the controller has put in the buffer: what is left to the handler of the
    // model's step.
    method OnOut(length: nat, inSync: bool, ghost c: Channel, ghost data: Bytes)
      requires Valid() && length == |data| <= buffer.Length
      requires Wf(c) && Possible(c, Out(data, inSync))
      requires View() == RegistersOf(c).(buffer := data + c.buffer[length..])
      modifies this
      ensures Valid() && View() == RegistersOf(Next(c, Out(data, inSync)))
    {
      if inSync {
        count := length;
        point := 0;
        if count != 0 {
          rx := Nak;
        }
      }
    }

    method Receive() returns (frame: Option<Bytes>)
      requires Valid()
      modifies this
      ensures Valid() && View() == AfterReceive(old(View())) && frame == FrameOf(old(View()))
    {
      var n := Available();
      if n == 0 {
        return None;
      }
      if n != PACKET_SIZE {
        var left := Available();
        while left != 0
          invariant Valid() && left == count
          decreases left
        {
          var _ := Read();
          left := Available();
        }
        Acknowledge();
        return None;
      }
      var packet: Bytes := [];
      var i := 0;
      while i < PACKET_SIZE
        invariant 0 <= i <= PACKET_SIZE && Valid()
        invariant count == PACKET_SIZE - i && point == old(point) + i
        invariant packet == buffer[old(point)..old(point) + i]
      {
        var b := Read();
        packet := packet + [b];
        i := i + 1;
      }
      Acknowledge();
      return Some(packet);
    }
  }

  // ---------------------------------------------------------------- the interleaved model agrees

  function RegistersOf(c: Channel): Registers {
    Registers(c.buffer, c.count, c.point, c.rx)
  }

  function Handed(frame: Option<Bytes>): seq<Bytes> {
    if frame.Some? then [frame.value] else []
  }

  // Main steps of one call that no interrupt cuts into.
  function CallLength(count: nat): nat {
    if count == PACKET_SIZE then 2 * PACKET_SIZE + 4 else 2 * count + 5
  }

  lemma {:induction false} DrainingEmpties(c: Channel)
    requires Wf(c) && c.place == Draining
    ensures MainRunWf(c, 2 * c.count + 1)
    ensures var d := MainRun(c, 2 * c.count + 1);
            Wf(d) && d.place == AckCount && d.buffer == c.buffer && !d.whole
            && d.current == c.current && d.handled == c.handled
    decreases c.count
  {
    var a := MainStep(c);
    if c.count == 0 {
      assert MainRunWf(a, 0);
      assert MainRun(c, 1) == MainRun(a, 0);
    } else {
      var b := MainStep(a);
      DrainingEmpties(b);
      var n := 2 * b.count + 1;
      assert MainRunWf(a, n + 1) && MainRun(a, n + 1) == MainRun(b, n);
      assert MainRun(c, n + 2) == MainRun(a, n + 1);
    }
  }

  lemma AckSettles(c: Channel)
    requires Wf(c) && c.place == AckCount
    ensures MainRunWf(c, 3)
    ensures RegistersOf(MainRun(c, 3)) == Registers(c.buffer, 0, 0, Ack)
  {
    var a := MainStep(c);
    var b := MainStep(a);
    var d := MainStep(b);
    assert MainRunWf(d, 0) && MainRunWf(b, 1) && MainRunWf(a, 2);
    assert MainRun(b, 1) == MainRun(d, 0) && MainRun(a, 2) == MainRun(b, 1);
  }

  // One call of the main code with no step of the controller in between does to the
  // registers what Receive does, and handles the same frame.
  lemma UninterruptedCallIsReceive(c: Channel)
    requires Wf(c) && c.place == Idle && c.count != 0 && c.log != []
    ensures Bounded(RegistersOf(c))
    ensures MainRunWf(c, CallLength(c.count))
    ensures var d := MainRun(c, CallLength(c.count));
            d.place == Idle && RegistersOf(d) == AfterReceive(RegistersOf(c))
            && d.handled == c.handled + Handed(FrameOf(RegistersOf(c)))
  {
    if c.count == PACKET_SIZE {
      UninterruptedFrame(c);
    } else {
      UninterruptedDrain(c);
    }
  }

  lemma UninterruptedFrame(c: Channel)
    requires Wf(c) && c.place == Idle && c.count == PACKET_SIZE && c.log != []
    ensures MainRunWf(c, 2 * PACKET_SIZE + 4)
    ensures var d := MainRun(c, 2 * PACKET_SIZE + 4);
            d.place == Idle && RegistersOf(d) == Registers(c.buffer, 0, 0, Ack)
            && d.handled == c.handled + [c.buffer[c.point..c.point + PACKET_SIZE]]
  {
    var a := MainStep(c);
    ReadingAppends(a, PACKET_SIZE);
    var read := MainRun(a, 2 * PACKET_SIZE);
    CallEnds(c, 2 * PACKET_SIZE, read);
    assert read.packet == c.buffer[c.point..c.point + PACKET_SIZE];
  }

  lemma UninterruptedDrain(c: Channel)
    requires Wf(c) && c.place == Idle && c.count != 0 && c.count != PACKET_SIZE && c.log != []
    ensures MainRunWf(c, 2 * c.count + 5)
    ensures var d := MainRun(c, 2 * c.count + 5);
            d.place == Idle && RegistersOf(d) == Registers(c.buffer, 0, 0, Ack) && d.handled == c.handled
  {
    var a := MainStep(c);
    DrainingEmpties(a);
    CallEnds(c, 2 * c.count + 1, MainRun(a, 2 * c.count + 1));
  }

  lemma CallEnds(c: Channel, n: nat, read: Channel)
    requires Wf(c) && MainRunWf(MainStep(c), n) && read == MainRun(MainStep(c), n)
    requires Wf(read) && read.place == AckCount
    ensures MainRunWf(c, n + 4)
    ensures var d := MainRun(c, n + 4);
            d.place == Idle && RegistersOf(d) == Registers(read.buffer, 0, 0, Ack)
            && d.handled == if read.whole then read.handled + [read.packet] else read.handled
  {
    var a := MainStep(c);
    FinishAck(read);
    AckSettles(read);
    MainRunSplit(a, n, 3);
    assert MainRun(c, n + 4) == MainRun(a, n + 3);
  }
}
