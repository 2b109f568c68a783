/**
 The registers of an IN endpoint and the code of include/usb_hid.c that sets them, in place;
 each piece does what the interleaved model says.
 */
module InEndpoint {
  import opened Wrappers
  import opened EndpointIn
  import opened EndpointInLaws

  class Sender {
    const buffer: array<bv8>
    var txLen: nat
    var busy: bool
    var tx: Response

    // The registers agree with a pipe state.
    ghost predicate Shows(p: Pipe)
      reads this, buffer
    {
      buffer[..] == p.buffer && txLen == p.txLen && busy == p.busy && tx == p.tx
    }

    constructor (size: nat)
      ensures buffer.Length == size && fresh(buffer)
      ensures forall clears, source :: Shows(Fresh(clears, source, buffer[..]))
    {
      buffer := new bv8[size];
      txLen, busy, tx := 0, false, Nak;
    }

    // The send once the busy flag is clear: the copy loop and the arming tail.
    method Send(report: array<bv8>, ghost p: Pipe)
      requires Shows(p) && Inv(p) && !busy && Possible(p, Submit(report[..])) && report != buffer
      modifies this, buffer
      ensures PossibleRun(p, SendSteps(old(report[..]))) && Shows(Run(p, SendSteps(old(report[..]))))
      ensures busy && tx == Ack && buffer[..txLen] == old(report[..])
    {
      UninterruptedSend(p, report[..]);
      CopyReport(report);
      txLen := report.Length;
      busy := true;
      tx := Ack;
    }

    method CopyReport(report: array<bv8>)
      requires report.Length <= buffer.Length && report != buffer
      modifies buffer
      ensures buffer[..] == old(report[..]) + old(buffer[report.Length..])
    {
      var i := 0;
      while i < report.Length
        invariant 0 <= i <= report.Length
        invariant forall j :: 0 <= j < i ==> buffer[j] == report[j]
        invariant forall j :: i <= j < buffer.Length ==> buffer[j] == old(buffer[j])
      {
        buffer[i] := report[i];
        i := i + 1;
      }
      assert buffer[..] == report[..] + old(buffer[report.Length..]);
    }

    // The handler that runs when the host has taken the packet.
    method OnComplete(ghost p: Pipe)
      requires Shows(p) && Inv(p) && Possible(p, HostReads)
      modifies this
      ensures Shows(Next(p, HostReads))
    {
      txLen := 0;
      tx := Nak;
      busy := false;
    }

    method OnBusReset(ghost p: Pipe)
      requires Shows(p) && Inv(p)
      modifies this
      ensures Shows(Next(p, BusReset))
    {
      tx := Nak;
      busy := false;
    }
  }
}
