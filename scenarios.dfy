/**
 * Whole exchanges between two clients and the relay server, composed from
 * the client's builders and demultiplexer and the server's receiving step.
 */
module Scenarios {
  import opened Wrappers
  import opened Text
  import opened Cipher
  import opened Codec
  import opened UserStore
  import opened MessageStore
  import opened Relay
  import opened Agent

  /** An IP the client's chat database accepts also passes the server's
      check, and can travel in a record field. */
  lemma StoredIpIsRelayable(ip: string)
    requires ValidIpAddress(ip)
    ensures ValidIP(ip) && !Contains(ip, Crlf)
  {
    ValidIpAddressShape(ip);
  }

  /** The server's half of a plaintext chat from `a` to a registered `b`:
      the relayed record goes to `b`, sealed under `b`'s session key, and
      `a` is acknowledged with `50`. */
  lemma PlainChatForwarded(crypto: Crypto, conns: seq<ClientConnection>, users: seq<UserRow>,
                           a: ClientConnection, b: ClientConnection, uName: string, message: string,
                           ivA: string)
    requires CbcInverse(crypto)
    requires b in conns && b.address != a.address
    requires !Contains(b.ip, Crlf) && !Contains(uName, Crlf) && !Contains(message, Crlf)
    requires CleanSeal(crypto, ChatRecord(b.ip, uName, 0, "0", "0", message), a.sessionKey, ivA)
    ensures var packet := ChatPacket(crypto, message, b.ip, uName, 0, "", "", a.sessionKey, "", ivA);
      && packet.Some?
      && var step := Step(crypto, conns, users, a, Received(packet.value));
      && !step.ended && step.connections == conns && step.users == users
      && Send(b, Sealed(b.sessionKey, ForwardRecord(uName, a.ip, "0", "0", "0", message))) in step.sent
      && Send(a, Raw("50")) in step.sent
  {
    var record := ChatRecord(b.ip, uName, 0, "0", "0", message);
    LiteralsSepFree();
    ChatRecordFields(b.ip, uName, 0, "0", "0", message);
    var fields := ["200", b.ip, uName, "0", "0", "0", message];
    EnvelopeRoundTrip(crypto, record, a.sessionKey, ivA);
    var packet := ChatPacket(crypto, message, b.ip, uName, 0, "", "", a.sessionKey, "", ivA);
    assert packet == Seal(crypto, record, a.sessionKey, ivA);
    assert UnpackMessage(crypto, packet.value, a.sessionKey) == Fields(fields);
    var sent := Forward(conns, a, fields);
    assert Step(crypto, conns, users, a, Received(packet.value)) == StepResult(conns, users, sent, false);
    ForwardReachesAndAcks(conns, a, b, fields);
  }

  /** A destination in the registry gets the relayed record, and the sender
      the ACK that follows it. */
  lemma ForwardReachesAndAcks(conns: seq<ClientConnection>, a: ClientConnection, b: ClientConnection,
                              fields: seq<string>)
    requires |fields| == 7 && b in conns && IsDestination(b, a, fields[1])
    ensures Send(b, Sealed(b.sessionKey, Relayed(a, fields))) in Forward(conns, a, fields)
    ensures Send(a, Raw("50")) in Forward(conns, a, fields)
  {
    ForwardMeaning(conns, a, fields);
    var sent := Forward(conns, a, fields);
    assert ForwardShape(sent, conns, a, fields);
    var i :| 0 <= i < |conns| && conns[i] == b;
    var x := Send(b, Sealed(b.sessionKey, Relayed(a, fields)));
    assert x in sent;
    var j :| 0 <= j < |sent| && sent[j] == x;
    assert j % 2 == 0;
    assert sent[j + 1] == Send(a, Raw("50"));
  }

  /** The receiver's half: `b`'s receiving thread hands the UI the message
      with the sender's registered IP and user name. */
  lemma ForwardedChatDelivered(crypto: Crypto, b: ClientConnection, senderIP: string, uName: string,
                               message: string, ivB: string, privB: string, rb: Receiver)
    requires CbcInverse(crypto)
    requires !Contains(senderIP, Crlf) && !Contains(uName, Crlf) && !Contains(message, Crlf)
    requires CleanSeal(crypto, ForwardRecord(uName, senderIP, "0", "0", "0", message), b.sessionKey, ivB)
    requires rb.running
    ensures var packet := Seal(crypto, ForwardRecord(uName, senderIP, "0", "0", "0", message), b.sessionKey, ivB);
      && packet.Some?
      && ReceiveStep(crypto, b.sessionKey, privB, rb, packet)
         == rb.(delivered := rb.delivered + [Delivery(senderIP, message, uName)])
  {
    var fwd := ForwardRecord(uName, senderIP, "0", "0", "0", message);
    LiteralsSepFree();
    ForwardRecordFields(uName, senderIP, "0", "0", "0", message);
    SealedUnPack(crypto, fwd, b.sessionKey, ivB);
  }

  /**
   * Account creation: the server stores the account of a free name with the
   * client's registered IP and key and replies `50`; fed that reply, the
   * client's `createAccount` reports True, so the profile takes the name.
   */
  lemma AccountCreated(crypto: Crypto, conns: seq<ClientConnection>, users: seq<UserRow>,
                       a: ClientConnection, username: string, hashedPass: string, sequence: nat,
                       iv: string, privKey: string, r: Receiver)
    requires CbcInverse(crypto)
    requires !Contains(username, Crlf) && !Contains(hashedPass, Crlf)
    requires CleanSeal(crypto, AccountRecord(username, hashedPass, sequence), a.sessionKey, iv)
    requires !UserExists(users, username)
    requires r.running
    ensures var packet := Seal(crypto, AccountRecord(username, hashedPass, sequence), a.sessionKey, iv);
      && packet.Some?
      && var step := Step(crypto, conns, users, a, Received(packet.value));
      && !step.ended && step.connections == conns
      && step.sent == [Send(a, Raw("50"))]
      && ColumnOf(step.users, username, 0) == Some(a.publicKey)
      && ColumnOf(step.users, username, 1) == Some(hashedPass)
      && ColumnOf(step.users, username, 2) == Some(a.ip)
      && Truthy(ReceiveAll(crypto, a.sessionKey, privKey, r, [Some("50")]).ack)
  {
    var record := AccountRecord(username, hashedPass, sequence);
    AccountRecordFields(username, hashedPass, sequence);
    EnvelopeRoundTrip(crypto, record, a.sessionKey, iv);
    var packet := Seal(crypto, record, a.sessionKey, iv).value;
    StepAccount(crypto, conns, users, a, packet);
    AckArrives(crypto, a.sessionKey, privKey, r);
    assert [Some("50")][..0] == [];
  }

  /**
   * Key lookup: for a registered user, the server answers a key request with
   * the stored key, and the requesting client's slot ends up holding it.
   */
  lemma KeyLookup(crypto: Crypto, conns: seq<ClientConnection>, users: seq<UserRow>,
                  a: ClientConnection, name: string, ip: string,
                  iv: string, privKey: string, r: Receiver)
    requires CbcInverse(crypto)
    requires !Contains(name, Crlf) && !Contains(ip, Crlf)
    requires CleanSeal(crypto, KeyRequestRecord(name, ip), a.sessionKey, iv)
    requires UserExists(users, name)
    requires forall i | 0 <= i < |users| :: !Contains(users[i].pubkey, Crlf)
    requires r.running
    ensures var packet := Seal(crypto, KeyRequestRecord(name, ip), a.sessionKey, iv);
      && packet.Some?
      && var step := Step(crypto, conns, users, a, Received(packet.value));
      exists i | 0 <= i < |users| :: users[i].uName == name
        && step.sent == [Send(a, Raw(KeyReply(users[i].pubkey)))]
        && ReceiveStep(crypto, a.sessionKey, privKey, r, Some(step.sent[0].packet.data))
           == r.(ack := AckBytes(users[i].pubkey))
  {
    var record := KeyRequestRecord(name, ip);
    KeyRequestRecordFields(name, ip);
    EnvelopeRoundTrip(crypto, record, a.sessionKey, iv);
    var packet := Seal(crypto, record, a.sessionKey, iv).value;
    StepKeyRequest(crypto, conns, users, a, packet);
    var step := Step(crypto, conns, users, a, Received(packet));
    var i :| 0 <= i < |users| && users[i].uName == name
             && step.sent == [Send(a, Raw(KeyReply(users[i].pubkey)))];
    KeyArrives(crypto, a.sessionKey, privKey, r, users[i].pubkey);
  }
}
