/** The device endpoint itself against the host's negotiation, when the network carries what each
    sends to the other. */
module EndpointAgreement {
  import opened ByteStrings
  import opened Hkdf
  import opened Hex
  import opened Handshake
  import opened HandshakeExchange
  import opened HostNegotiation
  import opened DeviceHandshake
  import opened HandshakeAgreement
  import opened DeviceTcp

  // Everything the device has put on the wire has reached the host, and everything that has arrived
  // at the device was sent by the host: its handshake lines and then `hostData`.
  ghost predicate Carries(device: ESPNetworkSerialTCP, auth: AuthSettings, clientRandom: Bytes, hostData: Bytes)
    requires Sized(device.h)
    reads device, device.client
  {
    var cn := HexEncode(clientRandom);
    && device.client.arrived == SentOn(device.h, auth, cn, device.client.wire) + hostData
    && (hostData != [] ==> EndOn(device.h, auth, cn, device.client.wire).end != HostFailed)
  }

  // An endpoint that is ready and the host's negotiation have come to the same end.  Past the
  // handshake the host has left exactly the device's data unread, and the device has taken, or
  // still has before it, exactly the host's.
  lemma ReadyEndpointAgrees(device: ESPNetworkSerialTCP, auth: AuthSettings, clientRandom: Bytes, hostData: Bytes)
    requires device.Valid() && device.client.up && device.protocolReady
    requires |clientRandom| == NONCE_SIZE && Carries(device, auth, clientRandom, hostData)
    ensures var host := EndOn(device.h, auth, HexEncode(clientRandom), device.client.wire);
            && (host.end, EndOfPhase(device.CurrentPhase()))
               == Exchange(device.h, auth, device.authKey, clientRandom, device.serverRandom)
            && (host.end != HostFailed ==> host.rest == device.tx.sent)
            && device.taken + device.client.inbound == hostData
  {
    hide ReadStream, EndOn, SentOn, Exchange;
    device.ReadyByReading();
    JoinedEndsAgree(device.h, auth, device.authKey, clientRandom, device.serverRandom,
                    device.client.arrived, device.client.wire, hostData, device.tx.sent);
  }
}
