/**
 * The relay server (server.py): the registry of connected clients, the
 * handshake that admits a client, and the receiving loop that answers
 * account and key requests and forwards chat messages.
 */
module Relay {
  import opened Wrappers
  import opened Text
  import opened Cipher
  import opened Codec
  import opened UserStore

  /** A socket address `(host, port)`. */
  datatype Address = Address(host: string, port: int)

  /**
   * A `Client_Connection`: where the client's socket is, the IP it announced,
   * its public key and its session key.  `id` stands for the object's
   * identity, which `list.remove` compares.
   */
  datatype ClientConnection = ClientConnection(
    id: nat, address: Address, ip: string, publicKey: string, sessionKey: string)

  /** `valid_IP`: four dot-separated parts; their contents are not checked. */
  predicate ValidIP(ip: string)
  {
    |Split(ip, ".")| == 4
  }

  /** An IP passes the server's check exactly when it holds three dots. */
  lemma ValidIPMeaning(ip: string)
    ensures ValidIP(ip) <==> multiset(ip)['.'] == 3
  {
    SplitCharCount(ip, '.');
  }

  // ---------------------------------------------------------------------
  // The registry
  // ---------------------------------------------------------------------

  /** `list.remove(c)`: drop the first occurrence; a missing client leaves
      the list as it is (the server catches the error). */
  function RemoveFirst(conns: seq<ClientConnection>, c: ClientConnection): (r: seq<ClientConnection>)
    ensures c !in conns ==> r == conns
    ensures c in conns ==> |r| == |conns| - 1
    ensures forall x | x in r :: x in conns
  {
    if conns == [] then []
    else if conns[0] == c then conns[1..]
    else [conns[0]] + RemoveFirst(conns[1..], c)
  }

  /** Removing a client takes exactly one occurrence of it out of the
      registry, when there is one, and keeps every other entry. */
  lemma {:induction false} RemoveFirstMultiset(conns: seq<ClientConnection>, c: ClientConnection)
    ensures multiset(RemoveFirst(conns, c)) == multiset(conns) - multiset{c}
    decreases |conns|
  {
    if conns != [] {
      assert conns == [conns[0]] + conns[1..];
      if conns[0] != c {
        RemoveFirstMultiset(conns[1..], c);
      }
    }
  }

  /** Removing the client found first at position `i` splices it out there. */
  lemma {:induction false} RemoveFirstAt(conns: seq<ClientConnection>, c: ClientConnection, i: nat)
    requires i < |conns| && conns[i] == c
    requires forall k | 0 <= k < i :: conns[k] != c
    ensures RemoveFirst(conns, c) == conns[..i] + conns[i + 1..]
    decreases i
  {
    if i == 0 {
      assert conns[..0] + conns[1..] == conns[1..];
    } else {
      var tail := conns[1..];
      assert conns[0] != c;
      forall k | 0 <= k < i - 1 ensures tail[k] != c {
        assert tail[k] == conns[k + 1];
      }
      RemoveFirstAt(tail, c, i - 1);
      assert RemoveFirst(conns, c) == [conns[0]] + RemoveFirst(tail, c);
      assert tail[..i - 1] == conns[1..i];
      assert tail[i..] == conns[i + 1..];
      assert conns[..i] == [conns[0]] + conns[1..i];
    }
  }

  // ---------------------------------------------------------------------
  // Forwarding
  // ---------------------------------------------------------------------

  /** A packet sent on a client's socket. */
  datatype Send = Send(to: ClientConnection, packet: Packet)

  /** The record relayed to the destination: name, the sender's registered
      IP, encryption type, IV, encrypted key, message. */
  function Relayed(sender: ClientConnection, fields: seq<string>): string
    requires |fields| == 7
  {
    ForwardRecord(fields[2], sender.ip, fields[3], fields[4], fields[5], fields[6])
  }

  /** A registered connection at the destination IP that is not the
      sender's own socket. */
  predicate IsDestination(conn: ClientConnection, sender: ClientConnection, receiverIP: string)
  {
    conn.ip == receiverIP && conn.address != sender.address
  }

  /** How many registered connections a message to `receiverIP` reaches. */
  function CountDestinations(conns: seq<ClientConnection>, sender: ClientConnection, receiverIP: string): nat
  {
    if conns == [] then 0
    else
      CountDestinations(conns[..|conns| - 1], sender, receiverIP)
      + (if IsDestination(conns[|conns| - 1], sender, receiverIP) then 1 else 0)
  }

  /** The packets the forward loop sends for a 7-field record, defined on a
      prefix of the registry: each destination gets the relayed record sealed
      under its session key, and the sender gets one ACK `50` after it. */
  function Forward(conns: seq<ClientConnection>, sender: ClientConnection, fields: seq<string>): (sent: seq<Send>)
    requires |fields| == 7
    ensures |sent| == 2 * CountDestinations(conns, sender, fields[1])
  {
    if conns == [] then []
    else
      var prev := Forward(conns[..|conns| - 1], sender, fields);
      var conn := conns[|conns| - 1];
      if IsDestination(conn, sender, fields[1]) then
        prev + [Send(conn, Sealed(conn.sessionKey, Relayed(sender, fields))), Send(sender, Raw("50"))]
      else prev
  }

  /** What forwarding sends: at even positions the relayed record, sealed for a
      registered destination that is not the sender's socket; at odd positions
      an ACK to the sender; and every destination gets the record. */
  predicate ForwardShape(sent: seq<Send>, conns: seq<ClientConnection>, sender: ClientConnection, fields: seq<string>)
    requires |fields| == 7
  {
    && (forall k | 0 <= k < |sent| && k % 2 == 0 ::
          sent[k].to in conns && IsDestination(sent[k].to, sender, fields[1])
          && sent[k].packet == Sealed(sent[k].to.sessionKey, Relayed(sender, fields)))
    && (forall k | 0 <= k < |sent| && k % 2 == 1 :: sent[k] == Send(sender, Raw("50")))
    && (forall i | 0 <= i < |conns| && IsDestination(conns[i], sender, fields[1]) ::
          Send(conns[i], Sealed(conns[i].sessionKey, Relayed(sender, fields))) in sent)
  }

  lemma {:induction false} ForwardMeaning(conns: seq<ClientConnection>, sender: ClientConnection, fields: seq<string>)
    requires |fields| == 7
    ensures ForwardShape(Forward(conns, sender, fields), conns, sender, fields)
    decreases |conns|
  {
    if conns != [] {
      var init := conns[..|conns| - 1];
      var conn := conns[|conns| - 1];
      ForwardMeaning(init, sender, fields);
      var prev := Forward(init, sender, fields);
      var sent := Forward(conns, sender, fields);
      var record := Relayed(sender, fields);
      var isDest := IsDestination(conn, sender, fields[1]);
      if isDest {
        assert sent == prev + [Send(conn, Sealed(conn.sessionKey, record)), Send(sender, Raw("50"))];
      } else {
        assert sent == prev;
      }
      assert forall x | x in init :: x in conns;
      assert |prev| % 2 == 0;
      forall k | 0 <= k < |sent| && k % 2 == 0
        ensures sent[k].to in conns && IsDestination(sent[k].to, sender, fields[1])
        ensures sent[k].packet == Sealed(sent[k].to.sessionKey, record)
      {
        if k < |prev| {
          assert sent[k] == prev[k];
          assert prev[k].to in init;
        } else {
          assert isDest && k == |prev|;
          assert sent[k] == Send(conn, Sealed(conn.sessionKey, record));
        }
      }
      forall k | 0 <= k < |sent| && k % 2 == 1 ensures sent[k] == Send(sender, Raw("50")) {
        if k < |prev| {
          assert sent[k] == prev[k];
        } else {
          assert isDest && k == |prev| + 1;
        }
      }
      forall i | 0 <= i < |conns| && IsDestination(conns[i], sender, fields[1])
        ensures Send(conns[i], Sealed(conns[i].sessionKey, record)) in sent
      {
        if i < |conns| - 1 {
          assert conns[i] == init[i];
          var x := Send(conns[i], Sealed(conns[i].sessionKey, record));
          var j :| 0 <= j < |prev| && prev[j] == x;
          assert sent[j] == x;
        } else {
          assert sent[|prev|] == Send(conn, Sealed(conn.sessionKey, record));
        }
      }
    }
  }

  /** The sender never receives its own message, and it is acknowledged once
      per destination; with no destination nothing at all is sent. */
  lemma ForwardAcks(conns: seq<ClientConnection>, sender: ClientConnection, fields: seq<string>)
    requires |fields| == 7
    ensures var sent := Forward(conns, sender, fields);
      && (forall k | 0 <= k < |sent| && sent[k].packet.Sealed? :: sent[k].to.address != sender.address)
      && |sent| == 2 * CountDestinations(conns, sender, fields[1])
      && (CountDestinations(conns, sender, fields[1]) == 0 <==> sent == [])
  {
    ForwardMeaning(conns, sender, fields);
    var sent := Forward(conns, sender, fields);
    assert ForwardShape(sent, conns, sender, fields);
    forall k | 0 <= k < |sent| && sent[k].packet.Sealed? ensures sent[k].to.address != sender.address {
      assert k % 2 == 0;
    }
  }

  // ---------------------------------------------------------------------
  // The receiving loop
  // ---------------------------------------------------------------------

  /** What one `recv` on a client's socket produced. */
  datatype Inbound =
    | ConnectionReset          // ConnectionResetError: the client is gone
    | RecvFailed               // a timeout or other error: try again
    | Received(packet: string)

  /** One pass of `receivingThread`: the registry and user table afterwards,
      the packets sent, and whether the loop ends. */
  datatype StepResult = StepResult(
    connections: seq<ClientConnection>, users: seq<UserRow>, sent: seq<Send>, ended: bool)

  function Step(crypto: Crypto, connections: seq<ClientConnection>, users: seq<UserRow>,
                client: ClientConnection, inbound: Inbound): StepResult
  {
    match inbound
    case ConnectionReset => StepResult(RemoveFirst(connections, client), users, [], true)
    case RecvFailed => StepResult(connections, users, [], false)
    case Received(packet) =>
      match UnpackMessage(crypto, packet, client.sessionKey)
      case Dropped => StepResult(connections, users, [], false)
      // the exception escapes `unpackMessage` and ends the thread
      case DecryptRaised => StepResult(connections, users, [], true)
      case Fields(fields) =>
        if fields[0] == "0" then StepResult(RemoveFirst(connections, client), users, [], true)
        else if fields[0] == "10" then
          var (ok, after) := AddUserRows(users, fields[1], client.ip, client.publicKey, fields[2]);
          StepResult(connections, after, [Send(client, Raw(if ok then "50" else "55"))], false)
        else if fields[0] == "20" then
          match ColumnOf(users, fields[1], 0)
          case Some(key) => StepResult(connections, users, [Send(client, Raw(KeyReply(key)))], false)
          case None => StepResult(connections, users, [], false)
        // a 5-field record of another code fails indexing `fields[5]`
        else if |fields| != 7 then StepResult(connections, users, [], true)
        else StepResult(connections, users, Forward(connections, client, fields), false)
  }

  /** A disconnect record (code 0) removes the client and ends its loop. */
  lemma StepDisconnect(crypto: Crypto, connections: seq<ClientConnection>, users: seq<UserRow>,
                       client: ClientConnection, packet: string)
    requires UnpackMessage(crypto, packet, client.sessionKey).Fields?
    requires UnpackMessage(crypto, packet, client.sessionKey).fields[0] == "0"
    ensures var r := Step(crypto, connections, users, client, Received(packet));
      && r.ended && r.sent == [] && r.users == users
      && r.connections == RemoveFirst(connections, client)
      && (client in connections ==> |r.connections| == |connections| - 1)
      && multiset(r.connections)[client] == if client in connections then multiset(connections)[client] - 1 else 0
  {
    var r := Step(crypto, connections, users, client, Received(packet));
    var rest := RemoveFirst(connections, client);
    assert r.connections == rest && r.ended && r.sent == [] && r.users == users;
    RemoveFirstMultiset(connections, client);
    assert multiset(rest)[client] == if client in connections then multiset(connections)[client] - 1 else 0;
  }

  /** An account request (code 10) is answered `50` exactly when the name was
      free, and then the account holds the client's registered IP and key. */
  lemma StepAccount(crypto: Crypto, connections: seq<ClientConnection>, users: seq<UserRow>,
                    client: ClientConnection, packet: string)
    requires UnpackMessage(crypto, packet, client.sessionKey).Fields?
    requires UnpackMessage(crypto, packet, client.sessionKey).fields[0] == "10"
    ensures var fields := UnpackMessage(crypto, packet, client.sessionKey).fields;
      var r := Step(crypto, connections, users, client, Received(packet));
      && !r.ended && r.connections == connections
      && (r.sent == [Send(client, Raw("50"))] <==> !UserExists(users, fields[1]))
      && (r.sent == [Send(client, Raw("55"))] <==> UserExists(users, fields[1]))
      && (UserExists(users, fields[1]) ==> r.users == users)
      && (!UserExists(users, fields[1]) ==>
            ColumnOf(r.users, fields[1], 0) == Some(client.publicKey)
            && ColumnOf(r.users, fields[1], 1) == Some(fields[2])
            && ColumnOf(r.users, fields[1], 2) == Some(client.ip))
  {
    var fields := UnpackMessage(crypto, packet, client.sessionKey).fields;
    AddUserOutcome(users, fields[1], client.ip, client.publicKey, fields[2]);
    if !UserExists(users, fields[1]) {
      GettersAfterAdd(users, fields[1], client.ip, client.publicKey, fields[2]);
    }
  }

  /** A key request (code 20) is answered with the stored key when the user
      exists and with nothing otherwise. */
  lemma StepKeyRequest(crypto: Crypto, connections: seq<ClientConnection>, users: seq<UserRow>,
                       client: ClientConnection, packet: string)
    requires UnpackMessage(crypto, packet, client.sessionKey).Fields?
    requires UnpackMessage(crypto, packet, client.sessionKey).fields[0] == "20"
    ensures var name := UnpackMessage(crypto, packet, client.sessionKey).fields[1];
      var r := Step(crypto, connections, users, client, Received(packet));
      && !r.ended && r.connections == connections && r.users == users
      && (!UserExists(users, name) <==> r.sent == [])
      && (UserExists(users, name) ==>
            exists i | 0 <= i < |users| :: users[i].uName == name
              && r.sent == [Send(client, Raw(KeyReply(users[i].pubkey)))])
  {
    var name := UnpackMessage(crypto, packet, client.sessionKey).fields[1];
    var row := FindUser(users, name);
    if row.Some? {
      var i :| 0 <= i < |users| && users[i] == row.value;
    }
  }

  /** Whatever arrives, the registry changes only by removing this client,
      every packet goes to this client or to a registered connection, and no
      sealed message returns to the sender's own socket. */
  lemma StepFrame(crypto: Crypto, connections: seq<ClientConnection>, users: seq<UserRow>,
                  client: ClientConnection, inbound: Inbound)
    ensures var r := Step(crypto, connections, users, client, inbound);
      && (r.connections == connections || r.connections == RemoveFirst(connections, client))
      && (forall k | 0 <= k < |r.sent| :: r.sent[k].to == client || r.sent[k].to in connections)
      && (forall k | 0 <= k < |r.sent| && r.sent[k].packet.Sealed? :: r.sent[k].to.address != client.address)
  {
    if inbound.Received? {
      var u := UnpackMessage(crypto, inbound.packet, client.sessionKey);
      if u.Fields? && |u.fields| == 7 && u.fields[0] != "0" && u.fields[0] != "10" && u.fields[0] != "20" {
        ForwardMeaning(connections, client, u.fields);
        var sent := Forward(connections, client, u.fields);
        assert ForwardShape(sent, connections, client, u.fields);
        forall k | 0 <= k < |sent| ensures sent[k].to == client || sent[k].to in connections {
          if k % 2 == 1 {
            assert sent[k] == Send(client, Raw("50"));
          }
        }
        forall k | 0 <= k < |sent| && sent[k].packet.Sealed? ensures sent[k].to.address != client.address {
          assert k % 2 == 0;
        }
      }
    }
  }

  // ---------------------------------------------------------------------
  // The handshake
  // ---------------------------------------------------------------------

  /** How one pass of `connectionThread` ends: the client is turned away, the
      thread dies on an uncaught exception, or `addClient` is called. */
  datatype HandshakeOutcome =
    | Rejected
    | Aborted
    | Registered(ip: string, publicKey: string, sessionKey: string)

  /** The handshake as server.py:95-116 is written.  `RSA_verify` returns None
      when the signature checks out and raises InvalidSignature otherwise, so
      `if not RSA_verify(...)` turns a good signature away and lets a bad one
      end the thread; no client is ever registered. */
  function HandshakeAsWritten(crypto: Crypto, handshake: string): (r: HandshakeOutcome)
    ensures !r.Registered?
  {
    var header := Split(handshake, Crlf);
    if |header| != 5 then Rejected
    else
      var ip := header[1];
      var publicKey := header[2];
      if !ValidIP(ip) then Rejected
      else if crypto.verify(publicKey, header[4], Join(header[..4], Crlf)) then Rejected
      else Aborted
  }

  /** The handshake with the signature test the code evidently intends: the
      header must have 5 fields, a valid IP and a good signature; the key
      response must have 2 fields and a good signature; it must decrypt under
      the server's private key to 3 fields, the last being the session key. */
  function Handshake(crypto: Crypto, serverPriv: string, handshake: string, response: string): HandshakeOutcome
  {
    var header := Split(handshake, Crlf);
    if |header| != 5 then Rejected
    else
      var ip := header[1];
      var publicKey := header[2];
      if !ValidIP(ip) then Rejected
      else if !crypto.verify(publicKey, header[4], Join(header[..4], Crlf)) then Rejected
      else
        var fields := Split(response, Crlf);
        if |fields| != 2 then Rejected
        // `RSA_decrypt` returns None on a bad signature
        else if !crypto.verify(publicKey, fields[1], fields[0]) then Rejected
        else match crypto.rsaDecrypt(serverPriv, fields[0])
          case None => Aborted
          case Some(plain) =>
            var parts := Split(plain, Crlf);
            // unpacking into `code, sequence, sessionKey` raises otherwise
            if |parts| != 3 then Aborted
            else Registered(ip, publicKey, parts[2])
  }

  /** Every failing check skips registration: a registered client passed all
      of them, and is recorded with the IP and key it announced. */
  lemma HandshakeGate(crypto: Crypto, serverPriv: string, handshake: string, response: string)
    requires Handshake(crypto, serverPriv, handshake, response).Registered?
    ensures var header := Split(handshake, Crlf);
      var fields := Split(response, Crlf);
      var r := Handshake(crypto, serverPriv, handshake, response);
      && |header| == 5 && ValidIP(header[1])
      && crypto.verify(header[2], header[4], Join(header[..4], Crlf))
      && |fields| == 2 && crypto.verify(header[2], fields[1], fields[0])
      && crypto.rsaDecrypt(serverPriv, fields[0]).Some?
      && |Split(crypto.rsaDecrypt(serverPriv, fields[0]).value, Crlf)| == 3
      && r.ip == header[1] && r.publicKey == header[2]
      && r.sessionKey == Split(crypto.rsaDecrypt(serverPriv, fields[0]).value, Crlf)[2]
  {
  }

  /** The first handshake message a client sends (Client.py:296-301). */
  function ClientHello(ip: string, publicKey: string, signature: string): string
  {
    Join(["100", ip, publicKey, "0", signature], Crlf)
  }

  /** The client's key transfer: the RSA ciphertext of `100, 0, sessionKey`
      and its signature (Client.py:335-341); None where `RSA_encrypt` raises. */
  function ClientKeyTransfer(crypto: Crypto, serverPub: string, sessionKey: string, signature: string): Option<string>
  {
    match crypto.rsaEncrypt(serverPub, Join(["100", "0", sessionKey], Crlf))
    case None => None
    case Some(ct) => Some(ct + Crlf + signature)
  }

  /** A genuine client, whose signatures verify and whose IP and key hold no
      separator, is turned away by the handshake as written and registered,
      with its IP, key and session key, by the corrected one. */
  lemma GenuineClientHandshake(crypto: Crypto, serverPub: string, serverPriv: string,
                               ip: string, publicKey: string, sessionKey: string,
                               helloSig: string, transferSig: string)
    requires RsaKeyPair(crypto, serverPub, serverPriv)
    requires ValidIP(ip)
    requires !Contains(ip, Crlf) && !Contains(publicKey, Crlf) && !Contains(sessionKey, Crlf)
    requires !Contains(helloSig, Crlf) && !Contains(transferSig, Crlf)
    requires crypto.rsaEncrypt(serverPub, Join(["100", "0", sessionKey], Crlf)).Some?
    requires !Contains(crypto.rsaEncrypt(serverPub, Join(["100", "0", sessionKey], Crlf)).value, Crlf)
    requires crypto.verify(publicKey, helloSig, Join(["100", ip, publicKey, "0"], Crlf))
    requires crypto.verify(publicKey, transferSig, crypto.rsaEncrypt(serverPub, Join(["100", "0", sessionKey], Crlf)).value)
    ensures HandshakeAsWritten(crypto, ClientHello(ip, publicKey, helloSig)) == Rejected
    ensures ClientKeyTransfer(crypto, serverPub, sessionKey, transferSig).Some?
    ensures Handshake(crypto, serverPriv, ClientHello(ip, publicKey, helloSig),
                      ClientKeyTransfer(crypto, serverPub, sessionKey, transferSig).value)
            == Registered(ip, publicKey, sessionKey)
  {
    DecimalSepFree("100");
    DecimalSepFree("0");
    var hello := ["100", ip, publicKey, "0", helloSig];
    SplitFields(hello);
    assert hello[..4] == ["100", ip, publicKey, "0"];
    var plain := ["100", "0", sessionKey];
    SplitFields(plain);
    var ct := crypto.rsaEncrypt(serverPub, Join(plain, Crlf)).value;
    SplitFields([ct, transferSig]);
    assert Join([ct, transferSig], Crlf) == ct + Crlf + transferSig by {
      assert [ct, transferSig][1..] == [transferSig];
    }
  }

  // ---------------------------------------------------------------------
  // The server object
  // ---------------------------------------------------------------------

  /** The `Server` object's registry of connected clients. */
  class Server {
    var connections: seq<ClientConnection>
    /** The identity the next `Client_Connection` object receives. */
    var nextId: nat

    /** Every registered connection is an object created earlier. */
    predicate Valid()
      reads this
    {
      forall i | 0 <= i < |connections| :: connections[i].id < nextId
    }

    constructor ()
      ensures connections == [] && Valid()
    {
      connections := [];
      nextId := 0;
    }

    /** `addClient`: a new connection object, appended to the registry. */
    method AddClient(address: Address, ip: string, publicKey: string, sessionKey: string)
      returns (client: ClientConnection)
      requires Valid()
      modifies this
      ensures Valid()
      ensures client.address == address && client.ip == ip
      ensures client.publicKey == publicKey && client.sessionKey == sessionKey
      ensures client !in old(connections)
      ensures connections == old(connections) + [client]
    {
      client := ClientConnection(nextId, address, ip, publicKey, sessionKey);
      connections := connections + [client];
      nextId := nextId + 1;
    }

    /** `removeClient`: removes the first occurrence, if any. */
    method RemoveClient(client: ClientConnection)
      requires Valid()
      modifies this
      ensures Valid()
      ensures connections == RemoveFirst(old(connections), client)
    {
      var i := 0;
      while i < |connections| && connections[i] != client
        invariant 0 <= i <= |connections|
        invariant forall k | 0 <= k < i :: connections[k] != client
      {
        i := i + 1;
      }
      if i < |connections| {
        RemoveFirstAt(connections, client, i);
        connections := connections[..i] + connections[i + 1..];
      } else {
        assert client !in connections;
      }
    }

    /** One pass of `connectionThread` with the signature test corrected (see
        `Handshake`): the handshake, then `addClient` when it succeeds. */
    method Accept(crypto: Crypto, serverPriv: string, address: Address, handshake: string, response: string)
      returns (outcome: HandshakeOutcome, client: Option<ClientConnection>)
      requires Valid()
      modifies this
      ensures Valid()
      ensures outcome == Handshake(crypto, serverPriv, handshake, response)
      ensures outcome.Registered? ==>
        && client.Some? && client.value !in old(connections)
        && client.value.address == address && client.value.ip == outcome.ip
        && client.value.publicKey == outcome.publicKey && client.value.sessionKey == outcome.sessionKey
        && connections == old(connections) + [client.value]
      ensures !outcome.Registered? ==> client == None && connections == old(connections)
    {
      outcome := Handshake(crypto, serverPriv, handshake, response);
      client := None;
      if outcome.Registered? {
        var c := AddClient(address, outcome.ip, outcome.publicKey, outcome.sessionKey);
        client := Some(c);
      }
    }

    /** One pass of `connectionThread` as written: the handshake never
        succeeds, so `addClient` is never reached; the method may not touch
        the registry at all. */
    method AcceptAsWritten(crypto: Crypto, handshake: string)
      returns (outcome: HandshakeOutcome, client: Option<ClientConnection>)
      ensures outcome == HandshakeAsWritten(crypto, handshake) && !outcome.Registered?
      ensures client == None
    {
      outcome := HandshakeAsWritten(crypto, handshake);
      client := None;
    }

    /** One pass of `receivingThread` for `client`, with `db` the user table. */
    method HandleInbound(crypto: Crypto, db: UserDataBase, client: ClientConnection, inbound: Inbound)
      returns (sent: seq<Send>, ended: bool)
      requires Valid()
      modifies this, db
      ensures Valid()
      ensures StepResult(connections, db.users, sent, ended)
           == Step(crypto, old(connections), old(db.users), client, inbound)
    {
      sent := [];
      match inbound {
        case ConnectionReset =>
          RemoveClient(client);
          return sent, true;
        case RecvFailed =>
          return sent, false;
        case Received(packet) =>
          var unpacked := UnpackMessage(crypto, packet, client.sessionKey);
          match unpacked {
            case Dropped =>
              return sent, false;
            case DecryptRaised =>
              return sent, true;
            case Fields(fields) =>
              if fields[0] == "0" {
                RemoveClient(client);
                return sent, true;
              } else if fields[0] == "10" {
                var success := db.AddUser(fields[1], client.ip, client.publicKey, fields[2]);
                sent := [Send(client, Raw(if success then "50" else "55"))];
                return sent, false;
              } else if fields[0] == "20" {
                var key := db.GetUserPublicKey(fields[1]);
                if key.Some? {
                  sent := [Send(client, Raw(KeyReply(key.value)))];
                }
                return sent, false;
              }
              if |fields| != 7 {
                return sent, true;
              }
              var conns := connections;
              for i := 0 to |conns|
                invariant sent == Forward(conns[..i], client, fields)
              {
                var conn := conns[i];
                assert conns[..i + 1][..i] == conns[..i];
                if conn.ip == fields[1] && conn.address != client.address {
                  var newPacket := ForwardRecord(fields[2], client.ip, fields[3], fields[4], fields[5], fields[6]);
                  sent := sent + [Send(conn, Sealed(conn.sessionKey, newPacket)), Send(client, Raw("50"))];
                }
              }
              assert conns[..|conns|] == conns;
              ended := false;
          }
      }
    }
  }
}
