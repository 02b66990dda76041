/** The device's client socket.  Reads and sends may be short, a send may be refused, and the
    connection may drop at any test; a drop is permanent.  Bytes arrive only between calls of
    the public device methods (`Arrive`).  `faults` counts what the environment did: drops,
    refused reads, sends that took less than offered, a missing descriptor. */
module Sockets {
  import opened ByteStrings

  datatype SendResult = Sent(count: nat) | WouldBlock | SendFailed

  class Client {
    var up: bool
    var inbound: Bytes       // received by the socket, not yet read
    ghost var wire: Bytes    // everything the socket has accepted for sending
    ghost var faults: nat
    ghost var arrived: Bytes              // everything received by the socket, read or not
    ghost var sends: seq<SendResult>      // what each `send` came to
    ghost const atFirst: bool              // whether the connection was up at first

    constructor (up: bool, inbound: Bytes)
      ensures this.up == atFirst == up && this.inbound == arrived == inbound && wire == [] && faults == 0
    {
      atFirst := up;
      this.up, this.inbound, wire, faults, arrived, sends := up, inbound, [], 0, inbound, [];
    }

    // The environment's step.
    method Arrive(bytes: Bytes)
      modifies this`inbound, this`arrived
      ensures inbound == old(inbound) + bytes && arrived == old(arrived) + bytes
    {
      inbound, arrived := inbound + bytes, arrived + bytes;
    }

    // `operator bool`: whether the object holds a socket, open or not.
    method Present() returns (present: bool)
      ensures up ==> present
    {
      present := *;
      present := present || up;
    }

    method Connected() returns (connected: bool)
      modifies this`up, this`faults
      ensures connected == up && (up ==> old(up))
      ensures faults == old(faults) + if up == old(up) then 0 else 1
    {
      var dropped: bool := *;
      if dropped && up {
        up, faults := false, faults + 1;
      }
      connected := up;
    }

    method Available() returns (count: nat)
      ensures count == |inbound|
    {
      count := |inbound|;
    }

    method Read(buffer: array<byte>, offset: nat, request: nat) returns (count: int)
      requires offset + request <= buffer.Length
      modifies this`inbound, this`faults, buffer
      ensures count <= request && faults == old(faults) + if count > 0 then 0 else 1
      ensures count > 0 ==>
                && count <= |old(inbound)| && inbound == old(inbound)[count..]
                && buffer[..offset + count] == old(buffer[..offset]) + old(inbound)[..count]
                && buffer[offset + count..] == old(buffer[offset + count..])
      ensures count <= 0 ==> inbound == old(inbound) && buffer[..] == old(buffer[..])
    {
      count := *;
      if count <= 0 || count > request || count > |inbound| {
        faults := faults + 1;
        return -1;
      }
      forall i | 0 <= i < count {
        buffer[offset + i] := inbound[i];
      }
      inbound := inbound[count..];
    }

    // One byte, or -1.
    method ReadByte() returns (value: int)
      modifies this`inbound, this`faults
      ensures value < 0 ==> inbound == old(inbound) && (inbound == [] || faults == old(faults) + 1)
      ensures value >= 0 ==> faults == old(faults)
      ensures faults >= old(faults)
      ensures value >= 0 ==> old(inbound) != [] && value == old(inbound)[0] && inbound == old(inbound)[1..]
    {
      var fails: bool := *;
      if fails || inbound == [] {
        faults := faults + 1;
        return -1;
      }
      value := inbound[0];
      inbound := inbound[1..];
    }

    method PeekByte() returns (value: int)
      ensures value >= 0 ==> inbound != [] && value == inbound[0]
    {
      var fails: bool := *;
      if fails || inbound == [] {
        return -1;
      }
      value := inbound[0];
    }

    // `fd()`: negative when there is no descriptor.
    method Descriptor() returns (fd: int)
      modifies this`faults
      ensures faults == old(faults) + if fd < 0 then 1 else 0
    {
      fd := *;
      faults := faults + if fd < 0 then 1 else 0;
    }

    method Send(data: Bytes) returns (result: SendResult)
      modifies this`wire, this`faults, this`sends
      ensures sends == old(sends) + [result]
      ensures result.Sent? ==> result.count <= |data| && wire == old(wire) + data[..result.count]
      ensures !result.Sent? ==> wire == old(wire)
      ensures faults == old(faults) + if result == Sent(|data|) then 0 else 1
    {
      var count: int := *;
      if 0 <= count <= |data| {
        faults := faults + if count == |data| then 0 else 1;
        wire := wire + data[..count];
        sends := sends + [Sent(count)];
        return Sent(count);
      }
      faults := faults + 1;
      var blocked: bool := *;
      result := if blocked then WouldBlock else SendFailed;
      sends := sends + [result];
    }

    method Stop()
      modifies this`up, this`inbound
      ensures !up && inbound == []
    {
      up, inbound := false, [];
    }
  }

  // The listening socket.
  class Server {
    ghost var answers: seq<Client?>    // of each call of Accept

    constructor ()
      ensures answers == []
    {
      answers := [];
    }

    // `accept()`: no one, or a new connection in any state.
    method Accept() returns (candidate: Client?)
      modifies this
      ensures answers == old(answers) + [candidate]
      ensures candidate != null ==>
                && fresh(candidate) && candidate.wire == [] && candidate.arrived == candidate.inbound
                && candidate.faults == 0 && (candidate.atFirst <==> candidate.up)
    {
      var none, up: bool := *, *;
      var inbound: Bytes := *;
      candidate := null;
      if !none {
        candidate := new Client(up, inbound);
      }
      answers := answers + [candidate];
    }
  }

  // The host's connection.  `inbound` is what will still arrive before reads start to fail, so
  // a read fails exactly when it is empty.  A write error is reported only with a short count.
  // Closing it makes both fail from then on.
  class Conn {
    var inbound: Bytes
    var closed: bool
    ghost var wire: Bytes
    ghost var faults: nat    // writes that failed or took less than offered

    constructor (inbound: Bytes)
      ensures this.inbound == inbound && wire == [] && !closed
    {
      this.inbound, wire, faults, closed := inbound, [], 0, false;
    }

    method Read(request: nat) returns (bytes: Bytes, ok: bool)
      requires request > 0
      modifies this`inbound
      ensures ok <==> old(inbound) != []
      ensures |bytes| <= request && (bytes != [] <==> ok)
      ensures old(inbound) == bytes + inbound
    {
      if inbound == [] {
        return [], false;
      }
      var count: int := *;
      if count < 1 || count > request || count > |inbound| {
        count := 1;
      }
      bytes, ok := inbound[..count], true;
      inbound := inbound[count..];
    }

    method Write(data: Bytes) returns (count: nat, ok: bool)
      modifies this`wire, this`faults
      ensures count <= |data| && wire == old(wire) + data[..count]
      ensures !ok ==> count < |data|
      ensures closed && data != [] ==> count == 0 && !ok
      ensures faults == old(faults) + if count == |data| then 0 else 1
    {
      var n: int := *;
      count := if closed then 0 else if 0 <= n < |data| then n else |data|;
      wire := wire + data[..count];
      faults := faults + if count == |data| then 0 else 1;
      ok := *;
      ok := (ok && !closed) || count == |data|;
    }

    method Close()
      modifies this`inbound, this`closed
      ensures closed && inbound == []
    {
      inbound, closed := [], true;
    }
  }
}
